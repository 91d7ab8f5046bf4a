// What the desktop should look like, and which part of it can have changed.
module Scene {
  import opened Dirty

  const MAX_WINDOWS: nat := 16
  const TITLEBAR_H: nat := 24
  const TASKBAR_HEIGHT: nat := 36

  // A window as the window manager hands it over.  look gives the colour that painting the window
  // leaves at each screen pixel of its rectangle; content is its content's dirty box, if any, as
  // screen coordinates.
  datatype Window = Window(
    id: nat, rect: Rect, visible: bool, dirty: bool, contentDirty: bool, content: Rect, look: (int, int) -> nat)

  // The windows from back to front, and what the taskbar displays.
  datatype Scene = Scene(wins: seq<Window>, clock: nat)

  // The fixed parts of the desktop: background (with wallpaper and icons) and taskbar.
  datatype Decor = Decor(bg: (int, int) -> nat, bar: (nat, int, int) -> nat)

  ghost predicate Distinct(wins: seq<Window>) {
    && (forall i :: 0 <= i < |wins| ==> wins[i].id < MAX_WINDOWS)
    && (forall i, j :: 0 <= i < j < |wins| ==> wins[i].id != wins[j].id)
  }

  predicate NonEmpty(r: Rect) { r.w > 0 && r.h > 0 }

  // The window gives this pixel a colour.
  predicate Paints(v: Window, px: int, py: int) { v.visible && Inside(v.rect, px, py) }

  // The painter's algorithm at one pixel: the first n windows over the background.
  function Painted(d: Decor, wins: seq<Window>, n: nat, px: int, py: int): nat
    requires n <= |wins|
  {
    if n == 0 then d.bg(px, py)
    else if Paints(wins[n - 1], px, py) then wins[n - 1].look(px, py)
    else Painted(d, wins, n - 1, px, py)
  }

  // The whole desktop, repainted from scratch; the taskbar is always on top.
  function Picture(d: Decor, s: Scene, px: int, py: int): nat {
    if py < 36 then d.bar(s.clock, px, py) else Painted(d, s.wins, |s.wins|, px, py)
  }

  // The topmost of the first n windows that paints the pixel decides.
  lemma {:induction false} PaintedByTop(d: Decor, wins: seq<Window>, n: nat, i: nat, px: int, py: int)
    requires i < n <= |wins| && Paints(wins[i], px, py)
    requires forall j :: i < j < n ==> !Paints(wins[j], px, py)
    ensures Painted(d, wins, n, px, py) == wins[i].look(px, py)
    decreases n
  {
    if n - 1 > i { PaintedByTop(d, wins, n - 1, i, px, py); }
  }

  lemma {:induction false} PaintedByNone(d: Decor, wins: seq<Window>, n: nat, px: int, py: int)
    requires n <= |wins| && forall j :: 0 <= j < n ==> !Paints(wins[j], px, py)
    ensures Painted(d, wins, n, px, py) == d.bg(px, py)
    decreases n
  {
    if n > 0 { PaintedByNone(d, wins, n - 1, px, py); }
  }

  // ---------- What may change without being flagged ----------

  // The same window on both sides, not flagged as a whole.
  predicate Kept(u: Window, v: Window) { u.id == v.id && u.rect == v.rect && !v.dirty }

  ghost predicate SameLook(u: Window, v: Window) {
    && u.visible == v.visible
    && (forall px, py :: Inside(v.rect, px, py) && !(v.contentDirty && Inside(v.content, px, py)) ==>
          u.look(px, py) == v.look(px, py))
  }

  // Every change between two frames is flagged: an unflagged window looks the same outside
  // its content's dirty box, and unflagged windows keep their order.
  ghost predicate Flagged(old_: seq<Window>, now: seq<Window>) {
    && (forall i, k :: 0 <= i < |old_| && 0 <= k < |now| && Kept(old_[i], now[k]) ==> SameLook(old_[i], now[k]))
    && (forall i, k, i', k' |
          && 0 <= i < |old_| && 0 <= k < k' < |now| && 0 <= i' < |old_|
          && Kept(old_[i], now[k]) && Kept(old_[i'], now[k']) ::
          i < i')
  }

  ghost predicate KeptIn(u: Window, now: seq<Window>) { exists k :: 0 <= k < |now| && Kept(u, now[k]) }

  ghost predicate WasKept(old_: seq<Window>, v: Window) { exists i :: 0 <= i < |old_| && Kept(old_[i], v) }

  // A pixel outside everything that was flagged: every window that has it inside its rectangle,
  // before or after, is a kept window whose content did not change there.
  ghost predicate Untouched(old_: seq<Window>, now: seq<Window>, px: int, py: int) {
    && (forall i :: 0 <= i < |old_| && Inside(old_[i].rect, px, py) ==> KeptIn(old_[i], now))
    && (forall k :: 0 <= k < |now| && Inside(now[k].rect, px, py) ==>
          WasKept(old_, now[k]) && !(now[k].contentDirty && Inside(now[k].content, px, py)))
  }

  // A window that painted an untouched pixel still does.
  lemma StillPaints(old_: seq<Window>, now: seq<Window>, px: int, py: int, i: nat) returns (k: nat)
    requires Flagged(old_, now) && Untouched(old_, now, px, py) && i < |old_| && Paints(old_[i], px, py)
    ensures k < |now| && Kept(old_[i], now[k]) && Paints(now[k], px, py)
  {
    k :| 0 <= k < |now| && Kept(old_[i], now[k]);
    assert SameLook(old_[i], now[k]);
  }

  // Two kept windows keep their order, so if j comes after i then m comes after k.
  lemma KeptOrder(old_: seq<Window>, now: seq<Window>, i: nat, k: nat, j: nat, m: nat)
    requires Distinct(old_) && Distinct(now) && Flagged(old_, now)
    requires i < |old_| && k < |now| && j < |old_| && m < |now| && Kept(old_[i], now[k]) && Kept(old_[j], now[m])
    requires i < j
    ensures k < m
  {
    hide Flagged;
    if m < k { OrderAt(old_, now, j, m, i, k); }
  }

  lemma OrderAt(old_: seq<Window>, now: seq<Window>, i: nat, k: nat, i': nat, k': nat)
    requires Flagged(old_, now) && i < |old_| && k < k' < |now| && i' < |old_|
    requires Kept(old_[i], now[k]) && Kept(old_[i'], now[k'])
    ensures i < i'
  {
  }

  // An untouched pixel of a kept window has its old colour and visibility.
  lemma KeptPixel(old_: seq<Window>, now: seq<Window>, px: int, py: int, i: nat, k: nat)
    requires Flagged(old_, now) && Untouched(old_, now, px, py) && i < |old_| && k < |now|
    requires Kept(old_[i], now[k]) && Paints(now[k], px, py)
    ensures Paints(old_[i], px, py) && old_[i].look(px, py) == now[k].look(px, py)
  {
    assert SameLook(old_[i], now[k]);
  }

  lemma Origin(old_: seq<Window>, now: seq<Window>, px: int, py: int, k: nat) returns (i: nat)
    requires Untouched(old_, now, px, py) && k < |now| && Paints(now[k], px, py)
    ensures i < |old_| && Kept(old_[i], now[k])
  {
    i :| 0 <= i < |old_| && Kept(old_[i], now[k]);
  }

  // The topmost painter of an untouched pixel was the topmost painter before.
  lemma SameTop(d: Decor, old_: seq<Window>, now: seq<Window>, px: int, py: int, k: nat)
    requires Distinct(old_) && Distinct(now) && Flagged(old_, now) && Untouched(old_, now, px, py)
    requires k < |now| && Paints(now[k], px, py) && forall j :: k < j < |now| ==> !Paints(now[j], px, py)
    ensures Painted(d, old_, |old_|, px, py) == now[k].look(px, py)
  {
    hide Painted, Paints, Distinct, Flagged, Untouched, Kept;
    var i := Origin(old_, now, px, py, k);
    KeptPixel(old_, now, px, py, i, k);
    forall j: nat | i < j < |old_| ensures !Paints(old_[j], px, py) {
      if Paints(old_[j], px, py) {
        var m := StillPaints(old_, now, px, py, j);
        KeptOrder(old_, now, i, k, j, m);
      }
    }
    PaintedByTop(d, old_, |old_|, i, px, py);
  }

  // Where nothing was flagged, the picture is the same.
  lemma UntouchedPixel(d: Decor, old_: seq<Window>, now: seq<Window>, px: int, py: int)
    requires Distinct(old_) && Distinct(now) && Flagged(old_, now) && Untouched(old_, now, px, py)
    ensures Painted(d, old_, |old_|, px, py) == Painted(d, now, |now|, px, py)
  {
    hide Painted, Inside, Flagged, Untouched, Distinct, Paints;
    if k :| 0 <= k < |now| && Paints(now[k], px, py) && forall j :: k < j < |now| ==> !Paints(now[j], px, py) {
      PaintedByTop(d, now, |now|, k, px, py);
      SameTop(d, old_, now, px, py, k);
    } else {
      NoTop(now, |now|, px, py);
      PaintedByNone(d, now, |now|, px, py);
      forall j | 0 <= j < |old_| ensures !Paints(old_[j], px, py) {
        if Paints(old_[j], px, py) { var m := StillPaints(old_, now, px, py, j); }
      }
      PaintedByNone(d, old_, |old_|, px, py);
    }
  }

  // Without a topmost painter there is no painter.
  lemma {:induction false} NoTop(wins: seq<Window>, n: nat, px: int, py: int)
    requires n <= |wins|
    requires !exists k :: 0 <= k < n && Paints(wins[k], px, py) && forall j :: k < j < n ==> !Paints(wins[j], px, py)
    ensures forall j :: 0 <= j < n ==> !Paints(wins[j], px, py)
    decreases n
  {
    if n > 0 {
      assert !Paints(wins[n - 1], px, py);
      NoTop(wins, n - 1, px, py);
    }
  }
}
