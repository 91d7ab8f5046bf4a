// Which window has the focus: the window manager's list, what raising and focusing a window do to the
// picture, and exactly when the picture survives them although nothing was flagged.
module Focus {
  import opened Dirty
  import opened Gfx
  import opened Scene
  import opened Compositor

  const TITLE_FOCUSED: nat := 0x0A5FBF
  const TITLE_BLURRED: nat := 0x707070

  // What painting a window leaves at a pixel of its rectangle: the back of the title bar, whose colour
  // depends on the focus, or a colour of its own.
  datatype Face = TitleBack | Plain(color: nat)

  function Shade(f: Face, focused: bool): nat {
    match f
    case TitleBack => if focused then TITLE_FOCUSED else TITLE_BLURRED
    case Plain(c) => c
  }

  // A window as the window manager keeps it.
  datatype Managed = Managed(
    id: nat, rect: Rect, visible: bool, focused: bool, dirty: bool, contentDirty: bool, content: Rect,
    face: (int, int) -> Face)

  predicate InTitle(m: Managed, px: int, py: int) {
    Inside(m.rect, px, py) && py < m.rect.y + 24
  }

  // As wm_create_window makes them: some width, more height than the title bar, which alone shows the focus.
  ghost predicate Proper(m: Managed) {
    && m.id < MAX_WINDOWS && m.rect.w > 0 && m.rect.h > TITLEBAR_H
    && forall px, py :: m.face(px, py) == TitleBack ==> InTitle(m, px, py)
  }

  // The window as the compositor sees it.
  function View(m: Managed): Window {
    Window(m.id, m.rect, m.visible, m.dirty, m.contentDirty, m.content, (x, y) => Shade(m.face(x, y), m.focused))
  }

  function Views(ws: seq<Managed>): (r: seq<Window>)
    ensures |r| == |ws| && forall i :: 0 <= i < |ws| ==> r[i] == View(ws[i])
  {
    seq(|ws|, i requires 0 <= i < |ws| => View(ws[i]))
  }

  // ---------- What the operations do to the list, from back to front ----------

  function Blurred(ws: seq<Managed>): (r: seq<Managed>)
    ensures |r| == |ws| && forall i :: 0 <= i < |ws| ==> r[i] == ws[i].(focused := false)
  {
    seq(|ws|, i requires 0 <= i < |ws| => ws[i].(focused := false))
  }

  function Raised<T>(ws: seq<T>, i: nat): (r: seq<T>)
    requires i < |ws|
    ensures |r| == |ws|
  {
    ws[..i] + ws[i + 1..] + [ws[i]]
  }

  function FocusTop(ws: seq<Managed>): (r: seq<Managed>)
    ensures |r| == |ws|
  {
    if ws == [] then ws else ws[|ws| - 1 := ws[|ws| - 1].(focused := true)]
  }

  // wm_focus_window
  function FocusOn(ws: seq<Managed>, i: nat): (r: seq<Managed>)
    requires i < |ws|
    ensures |r| == |ws|
  {
    FocusTop(Raised(Blurred(ws), i))
  }

  // wm_create_window
  function CreateOn(ws: seq<Managed>, m: Managed): seq<Managed> { FocusTop(Blurred(ws) + [m]) }

  // wm_destroy_window
  function DestroyOn(ws: seq<Managed>, i: nat): seq<Managed>
    requires i < |ws|
  {
    FocusTop(ws[..i] + ws[i + 1..])
  }

  // Exactly the window in front has the focus.
  ghost predicate TopFocused(ws: seq<Managed>) {
    forall j :: 0 <= j < |ws| ==> (ws[j].focused <==> j == |ws| - 1)
  }

  // Every operation keeps it so.
  lemma StaysTopFocused(ws: seq<Managed>, i: nat, m: Managed)
    requires TopFocused(ws)
    ensures TopFocused(CreateOn(ws, m.(focused := false)))
    ensures i < |ws| ==> TopFocused(FocusOn(ws, i)) && TopFocused(DestroyOn(ws, i))
  {
  }

  // ---------- The topmost painter ----------

  // The topmost of the first n windows that paints the pixel; -1 if none does.
  function Top(ws: seq<Window>, n: nat, px: int, py: int): (k: int)
    requires n <= |ws|
    ensures -1 <= k < n && (k >= 0 ==> Paints(ws[k], px, py))
    ensures forall j :: k < j < n ==> !Paints(ws[j], px, py)
  {
    if n == 0 then -1 else if Paints(ws[n - 1], px, py) then n - 1 else Top(ws, n - 1, px, py)
  }

  lemma {:induction false} PaintedTop(d: Decor, ws: seq<Window>, px: int, py: int)
    ensures var k := Top(ws, |ws|, px, py);
            Painted(d, ws, |ws|, px, py) == if k < 0 then d.bg(px, py) else ws[k].look(px, py)
  {
    var k := Top(ws, |ws|, px, py);
    if k < 0 { PaintedByNone(d, ws, |ws|, px, py); } else { PaintedByTop(d, ws, |ws|, k, px, py); }
  }

  // Raising a window keeps the colour of a pixel exactly when the window does not paint it, or the
  // topmost window that does already has its colour there.
  lemma RaiseExactly(d: Decor, ws: seq<Window>, i: nat, px: int, py: int)
    requires i < |ws|
    ensures Painted(d, Raised(ws, i), |ws|, px, py) == Painted(d, ws, |ws|, px, py) <==>
            (Paints(ws[i], px, py) ==> ws[Top(ws, |ws|, px, py)].look(px, py) == ws[i].look(px, py))
  {
    hide Painted;
    PaintedTop(d, ws, px, py);
    PaintedTop(d, Raised(ws, i), px, py);
    TopRaised(ws, i, px, py);
  }

  lemma RaisedAt<T>(ws: seq<T>, i: nat)
    requires i < |ws|
    ensures var b := Raised(ws, i);
            && b[|ws| - 1] == ws[i] && (forall j :: 0 <= j < i ==> b[j] == ws[j])
            && forall j :: i <= j < |ws| - 1 ==> b[j] == ws[j + 1]
  {
  }

  lemma TopRaised(ws: seq<Window>, i: nat, px: int, py: int)
    requires i < |ws|
    ensures var k, k' := Top(ws, |ws|, px, py), Top(Raised(ws, i), |ws|, px, py);
            if Paints(ws[i], px, py) then k' == |ws| - 1
            else k' == (if k > i then k - 1 else k) && (k >= 0 ==> Raised(ws, i)[k'] == ws[k])
  {
    RaisedAt(ws, i);
    hide Paints, Raised, Top;
    var b := Raised(ws, i);
    var k, k' := Top(ws, |ws|, px, py), Top(b, |ws|, px, py);
    if !Paints(ws[i], px, py) {
      if k > i { assert b[k - 1] == ws[k]; } else if k >= 0 { assert b[k] == ws[k]; }
      if k' >= 0 && k' >= i { assert b[k'] == ws[k' + 1]; }
    }
  }

  // The rectangles have a pixel in common, if both have one.
  predicate Meet(a: Rect, b: Rect) {
    a.x < b.x + b.w && b.x < a.x + a.w && a.y < b.y + b.h && b.y < a.y + a.h
  }

  // No visible window in front of the i-th overlaps it.
  predicate ClearAbove(ws: seq<Window>, i: nat)
    requires i < |ws|
  {
    ws[i].visible ==> forall j :: i < j < |ws| && ws[j].visible ==> !Meet(ws[i].rect, ws[j].rect)
  }

  // The same windows with other colours.
  function Relooked(ws: seq<Window>, f: (nat, int, int) -> nat): (r: seq<Window>)
    ensures |r| == |ws|
  {
    seq(|ws|, j requires 0 <= j < |ws| => ws[j].(look := (x, y) => f(j, x, y)))
  }

  ghost predicate RaiseKeeps(d: Decor, ws: seq<Window>, i: nat, f: (nat, int, int) -> nat, px: int, py: int)
    requires i < |ws|
  {
    Painted(d, Raised(Relooked(ws, f), i), |ws|, px, py) == Painted(d, Relooked(ws, f), |ws|, px, py)
  }

  // Raising a window, whatever the windows show, keeps the picture exactly when no visible window in
  // front of it overlaps it.
  lemma RaiseSafe(d: Decor, ws: seq<Window>, i: nat)
    requires i < |ws| && forall j :: 0 <= j < |ws| ==> NonEmpty(ws[j].rect)
    ensures ClearAbove(ws, i) <==> forall f, px, py :: RaiseKeeps(d, ws, i, f, px, py)
  {
    hide RaiseKeeps;
    if ClearAbove(ws, i) {
      forall f, px, py ensures RaiseKeeps(d, ws, i, f, px, py) { ClearKeeps(d, ws, i, f, px, py); }
    } else {
      var j :| i < j < |ws| && ws[j].visible && Meet(ws[i].rect, ws[j].rect);
      var a, b := ws[i].rect, ws[j].rect;
      var px, py := if a.x < b.x then b.x else a.x, if a.y < b.y then b.y else a.y;
      Hides(d, ws, i, j, px, py);
      assert !RaiseKeeps(d, ws, i, (k: nat, x: int, y: int) => k, px, py);
    }
  }

  lemma ClearThere(ws: seq<Window>, i: nat, px: int, py: int)
    requires i < |ws| && ClearAbove(ws, i)
    ensures forall j :: i < j < |ws| ==> !(Paints(ws[i], px, py) && Paints(ws[j], px, py))
  {
  }

  lemma ClearKeeps(d: Decor, ws: seq<Window>, i: nat, f: (nat, int, int) -> nat, px: int, py: int)
    requires i < |ws| && ClearAbove(ws, i)
    ensures RaiseKeeps(d, ws, i, f, px, py)
  {
    var b := Relooked(ws, f);
    ClearThere(ws, i, px, py);
    assert forall j :: 0 <= j < |ws| ==> b[j].rect == ws[j].rect && b[j].visible == ws[j].visible;
    assert forall j :: 0 <= j < |ws| ==> (Paints(b[j], px, py) <==> Paints(ws[j], px, py));
    hide Painted, ClearAbove, Paints, Raised, Top, Relooked;
    RaiseExactly(d, b, i, px, py);
  }

  lemma Hides(d: Decor, ws: seq<Window>, i: nat, j: nat, px: int, py: int)
    requires i < j < |ws| && Paints(ws[i], px, py) && Paints(ws[j], px, py)
    ensures !RaiseKeeps(d, ws, i, (k: nat, x: int, y: int) => k, px, py)
  {
    hide Painted;
    var b := Relooked(ws, (k: nat, x: int, y: int) => k);
    RaiseExactly(d, b, i, px, py);
    assert Paints(b[i], px, py) && Paints(b[j], px, py);
    var k := Top(b, |b|, px, py);
    assert k >= j;
  }

  // ---------- The title bars ----------

  function Seen(ws: seq<Managed>, px: int, py: int): (k: int)
    ensures -1 <= k < |ws|
  {
    Top(Views(ws), |ws|, px, py)
  }

  ghost predicate SameButFocus(a: seq<Managed>, b: seq<Managed>) {
    |a| == |b| && forall j :: 0 <= j < |a| ==> b[j] == a[j].(focused := b[j].focused)
  }

  lemma {:induction false} TopGeometry(a: seq<Window>, b: seq<Window>, n: nat, px: int, py: int)
    requires n <= |a| && n <= |b| && forall j :: 0 <= j < n ==> a[j].rect == b[j].rect && a[j].visible == b[j].visible
    ensures Top(a, n, px, py) == Top(b, n, px, py)
  {
    if n > 0 { TopGeometry(a, b, n - 1, px, py); }
  }

  // The colour of a pixel depends on the topmost window there only.
  lemma PaintedSeen(d: Decor, ws: seq<Managed>, px: int, py: int)
    ensures var k := Seen(ws, px, py);
            Painted(d, Views(ws), |ws|, px, py) ==
            if k < 0 then d.bg(px, py) else Shade(ws[k].face(px, py), ws[k].focused)
  {
    hide Painted, Top, Shade;
    PaintedTop(d, Views(ws), px, py);
  }

  // A change of focus alone shows exactly on the backs of title bars that are seen.
  lemma RefocusExactly(d: Decor, a: seq<Managed>, b: seq<Managed>, px: int, py: int)
    requires SameButFocus(a, b)
    ensures var k := Seen(a, px, py);
            Painted(d, Views(b), |b|, px, py) == Painted(d, Views(a), |a|, px, py) <==>
            k < 0 || a[k].focused == b[k].focused || a[k].face(px, py) != TitleBack
  {
    hide Painted, Top;
    TopGeometry(Views(a), Views(b), |a|, px, py);
    PaintedSeen(d, a, px, py);
    PaintedSeen(d, b, px, py);
  }

  // ---------- Focusing a window ----------

  // What a caller can look up beforehand: the window is in front already; or, where it paints, the
  // pixel has the colour it would give when focused; or, elsewhere, the pixel is not the back of the
  // front window's title bar.
  ghost predicate KeepsPixel(ws: seq<Managed>, i: nat, px: int, py: int)
    requires i < |ws|
  {
    var k := Seen(ws, px, py);
    i == |ws| - 1 ||
    if Paints(View(ws[i]), px, py)
    then k >= 0 && Shade(ws[i].face(px, py), true) == Shade(ws[k].face(px, py), ws[k].focused)
    else k < |ws| - 1 || ws[k].face(px, py) != TitleBack
  }

  lemma FocusExactly(d: Decor, ws: seq<Managed>, i: nat, px: int, py: int)
    requires TopFocused(ws) && i < |ws|
    ensures Painted(d, Views(FocusOn(ws, i)), |ws|, px, py) == Painted(d, Views(ws), |ws|, px, py) <==>
            KeepsPixel(ws, i, px, py)
  {
    hide Painted, Top;
    var b := FocusOn(ws, i);
    if i == |ws| - 1 {
      assert b == ws;
    } else {
      PaintedSeen(d, ws, px, py);
      PaintedSeen(d, b, px, py);
      SamePlaces(ws, i);
      hide FocusOn, Raised;
      TopGeometry(Views(b), Raised(Views(ws), i), |ws|, px, py);
      TopRaised(Views(ws), i, px, py);
      FocusParts(ws, i);
    }
  }

  lemma SamePlaces(ws: seq<Managed>, i: nat)
    requires i < |ws|
    ensures var a, b := Views(FocusOn(ws, i)), Raised(Views(ws), i);
            forall j :: 0 <= j < |ws| ==> a[j].rect == b[j].rect && a[j].visible == b[j].visible
  {
  }

  // Where the windows are after a change of focus.
  lemma FocusParts(ws: seq<Managed>, i: nat)
    requires i < |ws|
    ensures var b := FocusOn(ws, i);
            && b[|ws| - 1] == ws[i].(focused := true)
            && (forall j :: 0 <= j < i ==> b[j] == ws[j].(focused := false))
            && (forall j :: i <= j < |ws| - 1 ==> b[j] == ws[j + 1].(focused := false))
  {
  }

  // ---------- Creating and destroying a window ----------

  // The back of the front window's title bar is not seen here.
  ghost predicate NoTitleSeen(ws: seq<Managed>, px: int, py: int) {
    var k := Seen(ws, px, py);
    k < 0 || k < |ws| - 1 || ws[k].face(px, py) != TitleBack
  }

  // Outside a new window the picture keeps its colours but for the title bar that loses the focus.
  lemma CreateExactly(d: Decor, ws: seq<Managed>, m: Managed, px: int, py: int)
    requires TopFocused(ws) && !Inside(m.rect, px, py)
    ensures var b := CreateOn(ws, m);
            Painted(d, Views(b), |b|, px, py) == Painted(d, Views(ws), |ws|, px, py) <==> NoTitleSeen(ws, px, py)
  {
    hide Painted, Inside;
    var b := CreateOn(ws, m);
    assert forall j :: 0 <= j < |ws| ==> b[j] == ws[j].(focused := false);
    PaintedSeen(d, ws, px, py);
    PaintedSeen(d, b, px, py);
    assert !Paints(Views(b)[|ws|], px, py);
    TopGeometry(Views(b), Views(ws), |ws|, px, py);
  }

  // The window that gets the focus when window i goes: the one in front of the others, if i was in front.
  ghost predicate NoTitleGained(ws: seq<Managed>, i: nat, px: int, py: int)
    requires i < |ws|
  {
    var k := Seen(ws, px, py);
    i < |ws| - 1 || k < 0 || k < |ws| - 2 || ws[k].face(px, py) != TitleBack
  }

  lemma DestroyExactly(d: Decor, ws: seq<Managed>, i: nat, px: int, py: int)
    requires TopFocused(ws) && i < |ws| && !Inside(ws[i].rect, px, py)
    ensures var b := DestroyOn(ws, i);
            Painted(d, Views(b), |b|, px, py) == Painted(d, Views(ws), |ws|, px, py) <==> NoTitleGained(ws, i, px, py)
  {
    hide Painted, Inside, Top;
    var a, b := ws[..i] + ws[i + 1..], DestroyOn(ws, i);
    PaintedSeen(d, ws, px, py);
    PaintedSeen(d, b, px, py);
    assert Views(a) == Views(ws)[..i] + Views(ws)[i + 1..];
    TopRemoved(Views(ws), i, px, py);
    TopGeometry(Views(b), Views(a), |a|, px, py);
  }

  lemma TopRemoved(ws: seq<Window>, i: nat, px: int, py: int)
    requires i < |ws| && !Paints(ws[i], px, py)
    ensures var b := ws[..i] + ws[i + 1..];
            var k, k' := Top(ws, |ws|, px, py), Top(b, |b|, px, py);
            k != i && k' == (if k > i then k - 1 else k)
  {
    hide Paints;
    var b := ws[..i] + ws[i + 1..];
    var k, k' := Top(ws, |ws|, px, py), Top(b, |b|, px, py);
    assert forall j :: 0 <= j < i ==> b[j] == ws[j];
    assert forall j :: i <= j < |b| ==> b[j] == ws[j + 1];
    if k > i { assert b[k - 1] == ws[k]; } else if k >= 0 { assert b[k] == ws[k]; }
    if k' >= 0 && k' >= i { assert b[k'] == ws[k' + 1]; }
  }

  // ---------- Whatever the windows show ----------

  // The same windows with other contents; the title bar's back stays within the title bar.
  function Recoloured(ws: seq<Managed>, f: (nat, int, int) -> Face): (r: seq<Managed>)
    ensures |r| == |ws|
  {
    seq(|ws|, j requires 0 <= j < |ws| =>
      ws[j].(face := (x, y) => if f(j, x, y) == TitleBack && !InTitle(ws[j], x, y) then Plain(0) else f(j, x, y)))
  }

  ghost predicate KeptWith(ws: seq<Managed>, i: nat, f: (nat, int, int) -> Face, px: int, py: int)
    requires i < |ws|
  {
    KeepsPixel(Recoloured(ws, f), i, px, py)
  }

  // Focusing a window leaves the picture alone, whatever the windows show, exactly when it is in front
  // already, or neither it nor the window in front can be seen.
  lemma FocusSafe(ws: seq<Managed>, i: nat)
    requires TopFocused(ws) && i < |ws| && forall j :: 0 <= j < |ws| ==> Proper(ws[j])
    ensures (forall f, px, py :: KeptWith(ws, i, f, px, py)) <==>
            i == |ws| - 1 || (!ws[i].visible && !ws[|ws| - 1].visible)
  {
    hide KeepsPixel;
    var n := |ws| - 1;
    if i == n || (!ws[i].visible && !ws[n].visible) {
      forall f, px, py ensures KeptWith(ws, i, f, px, py) { UnseenKept(ws, i, f, px, py); }
    } else {
      var j := if ws[n].visible then n else i;
      var px, py := ws[j].rect.x, ws[j].rect.y;
      if Paints(View(ws[i]), px, py) && Seen(ws, px, py) != i {
        OtherColour(ws, i, px, py);
        assert !KeptWith(ws, i, (j: nat, x: int, y: int) => Plain(j), px, py);
      } else {
        TitleChanges(ws, i, j, px, py);
        assert !KeptWith(ws, i, (j: nat, x: int, y: int) => TitleBack, px, py);
      }
    }
  }

  lemma UnseenKept(ws: seq<Managed>, i: nat, f: (nat, int, int) -> Face, px: int, py: int)
    requires i < |ws| && (i == |ws| - 1 || (!ws[i].visible && !ws[|ws| - 1].visible))
    ensures KeptWith(ws, i, f, px, py)
  {
    var b := Recoloured(ws, f);
    assert b[i].visible == ws[i].visible && b[|ws| - 1].visible == ws[|ws| - 1].visible;
  }

  lemma OtherColour(ws: seq<Managed>, i: nat, px: int, py: int)
    requires i < |ws| - 1 && Paints(View(ws[i]), px, py) && Seen(ws, px, py) != i
    ensures !KeptWith(ws, i, (j: nat, x: int, y: int) => Plain(j), px, py)
  {
    hide Top;
    var b := Recoloured(ws, (j: nat, x: int, y: int) => Plain(j));
    TopGeometry(Views(ws), Views(b), |ws|, px, py);
    var k := Seen(b, px, py);
    assert Paints(Views(ws)[i], px, py) && k >= i;
    assert b[i].face(px, py) == Plain(i) && b[k].face(px, py) == Plain(k);
  }

  // At the corner of the title bar of j, which is i or the window in front.
  lemma TitleChanges(ws: seq<Managed>, i: nat, j: nat, px: int, py: int)
    requires TopFocused(ws) && i < |ws| - 1 && j < |ws| && Proper(ws[j]) && ws[j].visible
    requires px == ws[j].rect.x && py == ws[j].rect.y && j == if ws[|ws| - 1].visible then |ws| - 1 else i
    requires Paints(View(ws[i]), px, py) ==> Seen(ws, px, py) == i
    ensures !KeptWith(ws, i, (j: nat, x: int, y: int) => TitleBack, px, py)
  {
    hide Top, View, Views, Recoloured;
    var f := (j: nat, x: int, y: int) => TitleBack;
    var b := Recoloured(ws, f);
    RecolouredAt(ws, f, i, px, py);
    RecolouredAt(ws, f, j, px, py);
    SameSeen(ws, f, px, py);
    ViewPaints(ws, j, px, py);
    ViewPaints(ws, i, px, py);
    ViewPaints(b, i, px, py);
    assert InTitle(ws[j], px, py);
    if j == |ws| - 1 { TopPaints(ws, px, py); }
  }

  lemma RecolouredAt(ws: seq<Managed>, f: (nat, int, int) -> Face, j: nat, px: int, py: int)
    requires j < |ws|
    ensures var m := Recoloured(ws, f)[j];
            && m.rect == ws[j].rect && m.visible == ws[j].visible && m.focused == ws[j].focused
            && m.face(px, py) == if f(j, px, py) == TitleBack && !InTitle(ws[j], px, py) then Plain(0) else f(j, px, py)
  {
  }

  lemma SameSeen(ws: seq<Managed>, f: (nat, int, int) -> Face, px: int, py: int)
    ensures Seen(Recoloured(ws, f), px, py) == Seen(ws, px, py)
  {
    hide Top;
    TopGeometry(Views(ws), Views(Recoloured(ws, f)), |ws|, px, py);
  }

  lemma ViewPaints(ws: seq<Managed>, j: nat, px: int, py: int)
    requires j < |ws|
    ensures Paints(View(ws[j]), px, py) <==> ws[j].visible && Inside(ws[j].rect, px, py)
    ensures Views(ws)[j] == View(ws[j])
  {
  }

  lemma TopPaints(ws: seq<Managed>, px: int, py: int)
    requires ws != [] && Paints(View(ws[|ws| - 1]), px, py)
    ensures Seen(ws, px, py) == |ws| - 1
  {
  }

  // ---------- Two windows that overlap ----------

  // The windows of wm_spawn_demo_windows, but for the text and the buttons.
  function DemoWindow(id: nat, x: int, y: int, focused: bool, color: nat): Managed {
    Managed(id, Rect(x, y, 320, 220), true, focused, false, false, Rect(x, y + TITLEBAR_H, 0, 0),
      (px, py) => if Inside(Rect(x, y, 320, TITLEBAR_H), px, py) then TitleBack else Plain(color))
  }

  // Focusing the window behind goes wrong in its own title bar, in the other's, and where they overlap.
  lemma DemoWrong(d: Decor, px: int, py: int)
    requires (px, py) in {(130, 105), (500, 190), (300, 300)}
    ensures var ws := [DemoWindow(0, 120, 100, false, 0xFFF3CD), DemoWindow(1, 260, 180, true, 0xD1E7DD)];
            && Proper(ws[0]) && Proper(ws[1]) && TopFocused(ws)
            && Painted(d, Views(FocusOn(ws, 0)), 2, px, py) != Painted(d, Views(ws), 2, px, py)
  {
    hide Painted;
    var ws := [DemoWindow(0, 120, 100, false, 0xFFF3CD), DemoWindow(1, 260, 180, true, 0xD1E7DD)];
    FocusExactly(d, ws, 0, px, py);
    var v := Views(ws);
    assert v[0] == View(ws[0]) && v[1] == View(ws[1]);
    assert Paints(v[0], px, py) <==> px != 500;
    assert Paints(v[1], px, py) <==> px != 130;
    var k := Top(v, 2, px, py);
    assert k == if px == 130 then 0 else 1;
  }

  // ---------- What the next frame shows ----------

  // Nothing is flagged, as after every frame.
  ghost predicate Quiet(ws: seq<Managed>) {
    forall j :: 0 <= j < |ws| ==> !ws[j].dirty && !ws[j].contentDirty
  }

  ghost predicate Drawn(comp: Compositor, ws: seq<Managed>)
    reads comp, comp.prev, comp.havePrev, comp.screen, comp.screen.Frame()
  {
    && comp.Valid() && comp.FullClip() && !comp.firstFrame && comp.shown == Scene(Views(ws), comp.lastClock)
    && comp.ShowsScene(comp.shown) && Quiet(ws) && TopFocused(ws)
    && forall j :: 0 <= j < |ws| ==> Proper(ws[j])
  }

  // The pixel shows what a repaint from scratch would give it.
  ghost predicate Right(comp: Compositor, px: int, py: int)
    requires comp.screen.Valid() && comp.screen.InSurface(px, py)
    reads comp, comp.screen, comp.screen.Frame()
  {
    comp.screen.pixels[py, px] == Picture(comp.decor, comp.shown, px, py)
  }

  // A frame after a change of focus repaints nothing, so each pixel is right exactly if it keeps its
  // colour; the taskbar is not concerned.
  method FocusFrame(comp: Compositor, ws: seq<Managed>, i: nat)
    requires Drawn(comp, ws) && i < |ws|
    modifies comp`firstFrame, comp`lastClock, comp`shown, comp.prev, comp.havePrev
    modifies comp.screen, comp.screen.pixels, comp.screen.screen, comp.screen.screen.rects
    ensures comp.Valid() && comp.shown == Scene(Views(FocusOn(ws, i)), comp.lastClock)
    ensures forall px, py :: comp.screen.InSurface(px, py) ==>
              comp.screen.pixels[py, px] == old(comp.screen.pixels[py, px])
    ensures forall px, py :: comp.screen.InSurface(px, py) ==>
              (Right(comp, px, py) <==> py < TASKBAR_HEIGHT || KeepsPixel(ws, i, px, py))
  {
    hide Views, FocusOn, Snapshots, FrameDamage, TopFocused, Painted, KeepsPixel, Quiet, Proper;
    ghost var s := Scene(Views(FocusOn(ws, i)), comp.lastClock);
    FocusDamage(comp.prev[..], comp.havePrev[..], ws, i);
    var wins := comp.Compose(Scene(Views(FocusOn(ws, i)), comp.lastClock));
    forall px, py | comp.screen.InSurface(px, py)
      ensures Right(comp, px, py) <==> py < TASKBAR_HEIGHT || KeepsPixel(ws, i, px, py)
    {
      FocusExactly(comp.decor, ws, i, px, py);
    }
  }

  // A frame after a new window repaints its rectangle only.
  method CreateFrame(comp: Compositor, ws: seq<Managed>, m: Managed)
    requires Drawn(comp, ws) && Proper(m) && m.dirty && forall j :: 0 <= j < |ws| ==> ws[j].id != m.id
    modifies comp`firstFrame, comp`lastClock, comp`shown, comp.prev, comp.havePrev
    modifies comp.screen, comp.screen.pixels, comp.screen.screen, comp.screen.screen.rects
    ensures comp.Valid() && comp.shown == Scene(Views(CreateOn(ws, m)), comp.lastClock)
    ensures forall px, py :: comp.screen.InSurface(px, py) ==>
              (Right(comp, px, py) <==>
                 py < TASKBAR_HEIGHT || Inside(m.rect, px, py) || NoTitleSeen(ws, px, py))
  {
    hide Views, CreateOn, Snapshots, FrameDamage, TopFocused, Painted, NoTitleSeen, Quiet, Proper;
    CreateDamage(comp.prev[..], comp.havePrev[..], ws, m);
    var wins := comp.Compose(Scene(Views(CreateOn(ws, m)), comp.lastClock));
    forall px, py | comp.screen.InSurface(px, py) && !Inside(m.rect, px, py)
      ensures Right(comp, px, py) <==> py < TASKBAR_HEIGHT || NoTitleSeen(ws, px, py)
    {
      CreateExactly(comp.decor, ws, m, px, py);
    }
  }

  // A frame after a window has gone repaints its rectangle only.
  method DestroyFrame(comp: Compositor, ws: seq<Managed>, i: nat)
    requires Drawn(comp, ws) && i < |ws|
    modifies comp`firstFrame, comp`lastClock, comp`shown, comp.prev, comp.havePrev
    modifies comp.screen, comp.screen.pixels, comp.screen.screen, comp.screen.screen.rects
    ensures comp.Valid() && comp.shown == Scene(Views(DestroyOn(ws, i)), comp.lastClock)
    ensures forall px, py :: comp.screen.InSurface(px, py) ==>
              (Right(comp, px, py) <==>
                 py < TASKBAR_HEIGHT || Inside(ws[i].rect, px, py) || NoTitleGained(ws, i, px, py))
  {
    hide Views, DestroyOn, Snapshots, FrameDamage, TopFocused, Painted, NoTitleGained, Quiet, Proper;
    DestroyDamage(comp.prev[..], comp.havePrev[..], ws, i);
    var wins := comp.Compose(Scene(Views(DestroyOn(ws, i)), comp.lastClock));
    forall px, py | comp.screen.InSurface(px, py) && !Inside(ws[i].rect, px, py)
      ensures Right(comp, px, py) <==> py < TASKBAR_HEIGHT || NoTitleGained(ws, i, px, py)
    {
      DestroyExactly(comp.decor, ws, i, px, py);
    }
  }

  // The window is where its snapshot has it, and not flagged.
  predicate Still(prev: seq<Rect>, have: seq<bool>, v: Window)
    requires |prev| == |have| == MAX_WINDOWS && v.id < MAX_WINDOWS
  {
    have[v.id] && prev[v.id] == v.rect && !v.dirty && !v.contentDirty
  }

  lemma {:induction false} StillAddsNothing(prev: seq<Rect>, have: seq<bool>, wins: seq<Window>, n: nat, d: Damage)
    requires |prev| == |have| == MAX_WINDOWS && Distinct(wins) && n <= |wins|
    requires forall j :: 0 <= j < n ==> Still(prev, have, wins[j])
    ensures AddWindows(prev, have, wins, n, d) == d
  {
    if n > 0 { StillAddsNothing(prev, have, wins, n - 1, d); }
  }

  // Of the slots below n only s, if any, adds something.
  lemma {:induction false} GoneAdds(
    prev: seq<Rect>, have: seq<bool>, wins: seq<Window>, n: nat, d: Damage, s: int)
    requires |prev| == |have| == MAX_WINDOWS && n <= MAX_WINDOWS
    requires forall k :: 0 <= k < n && k != s && have[k] && NonEmpty(prev[k]) ==> Present(wins, k)
    requires 0 <= s < n ==> have[s] && !Present(wins, s)
    ensures AddGone(prev, have, wins, n, d) == if 0 <= s < n then Extend(d, prev[s]) else d
  {
    hide Present;
    if n > 0 { GoneAdds(prev, have, wins, n - 1, d, if s == n - 1 then -1 else s); }
  }

  // The snapshots of a quiet list.
  lemma QuietStill(prev: seq<Rect>, have: seq<bool>, ws: seq<Managed>, j: nat)
    requires |prev| == |have| == MAX_WINDOWS && Distinct(Views(ws)) && Snapshots(prev, have, Views(ws))
    requires Quiet(ws) && j < |ws| && Proper(ws[j])
    ensures ws[j].id < MAX_WINDOWS && have[ws[j].id] && prev[ws[j].id] == ws[j].rect
  {
    assert Views(ws)[j].rect == ws[j].rect;
  }

  // Nothing is damaged.
  lemma FocusDamage(prev: seq<Rect>, have: seq<bool>, ws: seq<Managed>, i: nat)
    requires |prev| == |have| == MAX_WINDOWS && Distinct(Views(ws)) && Snapshots(prev, have, Views(ws))
    requires Quiet(ws) && i < |ws| && forall j :: 0 <= j < |ws| ==> Proper(ws[j])
    ensures Distinct(Views(FocusOn(ws, i)))
    ensures FrameDamage(prev, have, Views(FocusOn(ws, i)), NO_DAMAGE) == NO_DAMAGE
  {
    hide Snapshots, Proper, FocusOn;
    var b := FocusOn(ws, i);
    var v := Views(b);
    FocusParts(ws, i);
    FocusDistinct(ws, i);
    forall j | 0 <= j < |v| ensures Still(prev, have, v[j]) {
      QuietStill(prev, have, ws, FromFocus(ws, i, j));
    }
    StillAddsNothing(prev, have, v, |v|, NO_DAMAGE);
    forall k | 0 <= k < MAX_WINDOWS && have[k] && NonEmpty(prev[k]) ensures Present(v, k) {
      var j := SlotHolder(prev, have, ws, k);
      assert v[ToFocus(ws, i, j)].id == k;
    }
    GoneAdds(prev, have, v, MAX_WINDOWS, NO_DAMAGE, -1);
  }

  lemma SlotHolder(prev: seq<Rect>, have: seq<bool>, ws: seq<Managed>, k: nat) returns (j: nat)
    requires |prev| == |have| == MAX_WINDOWS && Distinct(Views(ws)) && Snapshots(prev, have, Views(ws))
    requires k < MAX_WINDOWS && have[k] && NonEmpty(prev[k])
    ensures j < |ws| && ws[j].id == k && ws[j].rect == prev[k]
  {
    assert InSlot(Views(ws), k, prev[k]);
    var n :| 0 <= n < |Views(ws)| && Views(ws)[n].id == k && Views(ws)[n].rect == prev[k];
    j := n;
  }

  // Where the j-th window was before the i-th was raised, and where it is afterwards.
  function FromFocus(ws: seq<Managed>, i: nat, j: nat): (k: nat)
    requires i < |ws| && j < |ws|
    ensures k < |ws|
  {
    if j == |ws| - 1 then i else if j < i then j else j + 1
  }

  function ToFocus(ws: seq<Managed>, i: nat, j: nat): (k: nat)
    requires i < |ws| && j < |ws|
    ensures k < |ws| && FromFocus(ws, i, k) == j
  {
    if j == i then |ws| - 1 else if j < i then j else j - 1
  }

  lemma FocusDistinct(ws: seq<Managed>, i: nat)
    requires i < |ws| && Distinct(Views(ws))
    ensures Distinct(Views(FocusOn(ws, i)))
  {
    hide FocusOn;
    var b := FocusOn(ws, i);
    FocusParts(ws, i);
    forall j | 0 <= j < |ws| ensures Views(b)[j].id == Views(ws)[FromFocus(ws, i, j)].id {}
  }

  lemma CreateDamage(prev: seq<Rect>, have: seq<bool>, ws: seq<Managed>, m: Managed)
    requires |prev| == |have| == MAX_WINDOWS && Distinct(Views(ws)) && Snapshots(prev, have, Views(ws))
    requires Quiet(ws) && forall j :: 0 <= j < |ws| ==> Proper(ws[j])
    requires Proper(m) && m.dirty && forall j :: 0 <= j < |ws| ==> ws[j].id != m.id
    ensures var v := Views(CreateOn(ws, m));
            && Distinct(v)
            && forall px, py :: InDamage(FrameDamage(prev, have, v, NO_DAMAGE), px, py) <==> Inside(m.rect, px, py)
  {
    var v, n := Views(CreateOn(ws, m)), |ws|;
    CreateViews(ws, m);
    hide Snapshots, CreateOn, Views, Proper, AddWindows, AddGone, Extend, Quiet, Distinct, Present;
    forall j | 0 <= j < n ensures Still(prev, have, v[j]) { QuietStill(prev, have, ws, j); }
    StillAddsNothing(prev, have, v, n, NO_DAMAGE);
    forall k | 0 <= k < MAX_WINDOWS && have[k] && NonEmpty(prev[k]) ensures Present(v, k) && k != m.id {
      var j := SlotHolder(prev, have, ws, k);
      IsPresent(v, j);
    }
    NewAlone(prev, have, v, n);
    GoneAdds(prev, have, v, MAX_WINDOWS, AddWindows(prev, have, v, n + 1, NO_DAMAGE), -1);
  }

  // A new window in a slot without snapshot adds its rectangle.
  lemma NewAlone(prev: seq<Rect>, have: seq<bool>, v: seq<Window>, n: nat)
    requires |prev| == |have| == MAX_WINDOWS && Distinct(v) && |v| == n + 1 && v[n].dirty && NonEmpty(v[n].rect)
    requires have[v[n].id] ==> !NonEmpty(prev[v[n].id])
    requires AddWindows(prev, have, v, n, NO_DAMAGE) == NO_DAMAGE
    ensures forall px, py ::
              InDamage(AddWindows(prev, have, v, n + 1, NO_DAMAGE), px, py) <==> Inside(v[n].rect, px, py)
  {
    assert AddWindows(prev, have, v, n + 1, NO_DAMAGE) == AddWindow(prev, have, v[n], NO_DAMAGE);
  }

  lemma CreateViews(ws: seq<Managed>, m: Managed)
    requires Distinct(Views(ws)) && Quiet(ws) && Proper(m) && m.dirty && forall j :: 0 <= j < |ws| ==> ws[j].id != m.id
    ensures var v, n := Views(CreateOn(ws, m)), |ws|;
            && |v| == n + 1 && Distinct(v) && v[n].id == m.id && v[n].rect == m.rect && v[n].dirty && NonEmpty(m.rect)
            && forall j :: 0 <= j < n ==>
                 v[j].id == ws[j].id && v[j].rect == ws[j].rect && !v[j].dirty && !v[j].contentDirty
  {
    var b := CreateOn(ws, m);
    assert forall j :: 0 <= j < |ws| ==> b[j] == ws[j].(focused := false);
    assert forall j :: 0 <= j < |ws| ==> Views(ws)[j].id == ws[j].id;
  }

  lemma DestroyDamage(prev: seq<Rect>, have: seq<bool>, ws: seq<Managed>, i: nat)
    requires |prev| == |have| == MAX_WINDOWS && Distinct(Views(ws)) && Snapshots(prev, have, Views(ws))
    requires Quiet(ws) && i < |ws| && forall j :: 0 <= j < |ws| ==> Proper(ws[j])
    ensures var v := Views(DestroyOn(ws, i));
            && Distinct(v)
            && forall px, py :: InDamage(FrameDamage(prev, have, v, NO_DAMAGE), px, py) <==> Inside(ws[i].rect, px, py)
  {
    var v := Views(DestroyOn(ws, i));
    DestroyViews(ws, i);
    QuietStill(prev, have, ws, i);
    OneDamaged(ws[i].rect);
    hide Snapshots, DestroyOn, Views, Proper, AddWindows, AddGone, Quiet, Distinct, Present, Extend, InDamage, NonEmpty;
    forall j | 0 <= j < |v| ensures Still(prev, have, v[j]) { QuietStill(prev, have, ws, Before(i, j)); }
    StillAddsNothing(prev, have, v, |v|, NO_DAMAGE);
    OthersPresent(prev, have, ws, i, v);
    GoneAdds(prev, have, v, MAX_WINDOWS, NO_DAMAGE, ws[i].id);
  }

  lemma OthersPresent(prev: seq<Rect>, have: seq<bool>, ws: seq<Managed>, i: nat, v: seq<Window>)
    requires |prev| == |have| == MAX_WINDOWS && Distinct(Views(ws)) && Snapshots(prev, have, Views(ws))
    requires i < |ws| && |v| == |ws| - 1 && forall j :: 0 <= j < |v| ==> v[j].id == ws[Before(i, j)].id
    ensures forall k :: 0 <= k < MAX_WINDOWS && k != ws[i].id && have[k] && NonEmpty(prev[k]) ==> Present(v, k)
  {
    hide Snapshots, Views, Distinct, NonEmpty;
    forall k | 0 <= k < MAX_WINDOWS && k != ws[i].id && have[k] && NonEmpty(prev[k]) ensures Present(v, k) {
      var j := SlotHolder(prev, have, ws, k);
      assert v[if j < i then j else j - 1].id == k;
    }
  }

  lemma OneDamaged(r: Rect)
    requires NonEmpty(r)
    ensures forall px, py :: InDamage(Extend(NO_DAMAGE, r), px, py) <==> Inside(r, px, py)
  {
  }

  lemma IsPresent(v: seq<Window>, j: nat)
    requires j < |v|
    ensures Present(v, v[j].id)
  {
  }

  // Where the j-th window was before the i-th went.
  function Before(i: nat, j: nat): nat { if j < i then j else j + 1 }

  lemma DestroyViews(ws: seq<Managed>, i: nat)
    requires Distinct(Views(ws)) && Quiet(ws) && i < |ws|
    ensures var v := Views(DestroyOn(ws, i));
            && |v| == |ws| - 1 && Distinct(v) && !Present(v, ws[i].id)
            && forall j :: 0 <= j < |v| ==>
                 && v[j].id == ws[Before(i, j)].id < MAX_WINDOWS && v[j].rect == ws[Before(i, j)].rect
                 && !v[j].dirty && !v[j].contentDirty
  {
    var b := DestroyOn(ws, i);
    var v := Views(b);
    assert |v| == |ws| - 1;
    forall j | 0 <= j < |v|
      ensures v[j].id == ws[Before(i, j)].id && v[j].rect == ws[Before(i, j)].rect && !v[j].dirty && !v[j].contentDirty
    {
      assert b[j] == ws[Before(i, j)].(focused := b[j].focused);
    }
    hide DestroyOn, Views, Quiet;
    assert forall j :: 0 <= j < |ws| ==> Views(ws)[j].id == ws[j].id;
  }
}
