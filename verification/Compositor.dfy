// The damage-tracked compositor: repaints one rectangle that covers everything flagged since
// the last frame.
module Compositor {
  import opened Dirty
  import opened Gfx
  import opened Scene

  const DESKTOP_BG: nat := 0x1E1E2E

  // The damage so far: nothing, or the box [x0, x1) by [y0, y1).
  datatype Damage = Damage(has: bool, x0: int, y0: int, x1: int, y1: int)

  const NO_DAMAGE: Damage := Damage(false, 0, 0, 0, 0)

  predicate InDamage(d: Damage, px: int, py: int) { d.has && d.x0 <= px < d.x1 && d.y0 <= py < d.y1 }

  // extend_damage: the bounding box with one more rectangle.
  function Extend(d: Damage, r: Rect): (e: Damage)
    ensures forall px, py :: InDamage(d, px, py) || Inside(r, px, py) ==> InDamage(e, px, py)
    ensures e.has == (d.has || NonEmpty(r))
  {
    if !NonEmpty(r) then d
    else if !d.has then Damage(true, r.x, r.y, r.x + r.w, r.y + r.h)
    else Damage(true, Min(d.x0, r.x), Min(d.y0, r.y), Max(d.x1, r.x + r.w), Max(d.y1, r.y + r.h))
  }

  // And no more than that: any rectangle that covers the damage and r covers the extended damage.
  lemma ExtendLeast(d: Damage, r: Rect, c: Rect)
    requires d.has ==> d.x0 < d.x1 && d.y0 < d.y1
    ensures (forall px, py :: InDamage(d, px, py) || Inside(r, px, py) ==> Inside(c, px, py)) <==>
            (forall px, py :: InDamage(Extend(d, r), px, py) ==> Inside(c, px, py))
  {
    if forall px, py :: InDamage(d, px, py) || Inside(r, px, py) ==> Inside(c, px, py) {
      if NonEmpty(r) { assert Inside(r, r.x, r.y) && Inside(r, r.x + r.w - 1, r.y + r.h - 1); }
      if d.has { assert InDamage(d, d.x0, d.y0) && InDamage(d, d.x1 - 1, d.y1 - 1); }
    }
  }

  // A rectangle whose every point is damage.
  ghost predicate CoveredBy(r: Rect, d: Damage) { forall px, py :: Inside(r, px, py) ==> InDamage(d, px, py) }

  // The snapshots prev of the slots with have are the rectangles of these windows.
  ghost predicate Snapshots(prev: seq<Rect>, have: seq<bool>, wins: seq<Window>)
    requires |prev| == |have| == MAX_WINDOWS && Distinct(wins)
  {
    && (forall i :: 0 <= i < |wins| && NonEmpty(wins[i].rect) ==> have[wins[i].id] && prev[wins[i].id] == wins[i].rect)
    && (forall s :: 0 <= s < MAX_WINDOWS && have[s] && NonEmpty(prev[s]) ==> InSlot(wins, s, prev[s]))
  }

  ghost predicate InSlot(wins: seq<Window>, s: nat, r: Rect) {
    exists i :: 0 <= i < |wins| && wins[i].id == s && wins[i].rect == r
  }

  ghost predicate Present(wins: seq<Window>, s: nat) { exists i :: 0 <= i < |wins| && wins[i].id == s }

  // What window v damages, given the snapshots (pass 1 of compositor_compose).
  ghost predicate Damaged(prev: seq<Rect>, have: seq<bool>, v: Window, d: Damage)
    requires |prev| == |have| == MAX_WINDOWS && v.id < MAX_WINDOWS
  {
    if have[v.id] then
      if prev[v.id] != v.rect || v.dirty then CoveredBy(prev[v.id], d) && CoveredBy(v.rect, d)
      else v.contentDirty ==> CoveredBy(v.content, d)
    else CoveredBy(v.rect, d)
  }

  // d covers everything that the snapshots and the new windows call for.
  ghost predicate AllDamaged(prev: seq<Rect>, have: seq<bool>, wins: seq<Window>, d: Damage)
    requires |prev| == |have| == MAX_WINDOWS && Distinct(wins)
  {
    && (forall i :: 0 <= i < |wins| ==> Damaged(prev, have, wins[i], d))
    && (forall s :: 0 <= s < MAX_WINDOWS && have[s] && !Present(wins, s) ==> CoveredBy(prev[s], d))
  }

  // The damage of a frame, step by step: what a window adds in pass 1, what a slot whose window is
  // gone adds in pass 2, and what there is before both.
  function AddWindow(prev: seq<Rect>, have: seq<bool>, v: Window, d: Damage): Damage
    requires |prev| == |have| == MAX_WINDOWS && v.id < MAX_WINDOWS
  {
    if !have[v.id] then Extend(d, v.rect)
    else if prev[v.id] != v.rect || v.dirty then Extend(Extend(d, prev[v.id]), v.rect)
    else if v.contentDirty then Extend(d, v.content)
    else d
  }

  ghost function AddWindows(prev: seq<Rect>, have: seq<bool>, wins: seq<Window>, n: nat, d: Damage): Damage
    requires |prev| == |have| == MAX_WINDOWS && Distinct(wins) && n <= |wins|
  {
    if n == 0 then d else AddWindow(prev, have, wins[n - 1], AddWindows(prev, have, wins, n - 1, d))
  }

  ghost function AddGone(prev: seq<Rect>, have: seq<bool>, wins: seq<Window>, n: nat, d: Damage): Damage
    requires |prev| == |have| == MAX_WINDOWS && n <= MAX_WINDOWS
  {
    if n == 0 then d
    else
      var e := AddGone(prev, have, wins, n - 1, d);
      if have[n - 1] && !Present(wins, n - 1) then Extend(e, prev[n - 1]) else e
  }

  function StartDamage(first: bool, tick: bool, width: nat, height: nat): Damage {
    var d := if first then Damage(true, 0, 0, width, height) else NO_DAMAGE;
    if tick then Extend(d, Rect(0, 0, width, TASKBAR_HEIGHT)) else d
  }

  ghost function FrameDamage(prev: seq<Rect>, have: seq<bool>, wins: seq<Window>, d: Damage): Damage
    requires |prev| == |have| == MAX_WINDOWS && Distinct(wins)
  {
    AddGone(prev, have, wins, MAX_WINDOWS, AddWindows(prev, have, wins, |wins|, d))
  }

  // A pixel outside the damage is outside everything flagged.
  lemma OutsideDamage(
    prev: seq<Rect>, have: seq<bool>, old_: seq<Window>, now: seq<Window>, d: Damage, px: int, py: int)
    requires |prev| == |have| == MAX_WINDOWS && Distinct(old_) && Distinct(now)
    requires Snapshots(prev, have, old_) && AllDamaged(prev, have, now, d) && !InDamage(d, px, py)
    ensures Untouched(old_, now, px, py)
  {
    hide Inside, InDamage;
    forall i | 0 <= i < |old_| && Inside(old_[i].rect, px, py) ensures KeptIn(old_[i], now) {
      InsideNonEmpty(old_[i].rect, px, py);
      var k :| 0 <= k < |now| && now[k].id == old_[i].id;
      assert Damaged(prev, have, now[k], d);
      assert Kept(old_[i], now[k]);
    }
    forall k | 0 <= k < |now| && Inside(now[k].rect, px, py)
      ensures WasKept(old_, now[k]) && !(now[k].contentDirty && Inside(now[k].content, px, py))
    {
      InsideNonEmpty(now[k].rect, px, py);
      assert Damaged(prev, have, now[k], d);
      var i :| 0 <= i < |old_| && old_[i].id == now[k].id && old_[i].rect == prev[now[k].id];
      assert Kept(old_[i], now[k]);
    }
  }

  lemma InsideNonEmpty(r: Rect, px: int, py: int)
    ensures Inside(r, px, py) ==> NonEmpty(r)
  {
  }

  lemma NoDamageNoPoints(d: Damage, r: Rect)
    requires !d.has && CoveredBy(r, d)
    ensures !NonEmpty(r)
  {
    if NonEmpty(r) { assert Inside(r, r.x, r.y); }
  }

  // Without damage the old snapshots describe the new windows.
  lemma SnapshotsStand(
    prev: seq<Rect>, have: seq<bool>, have': seq<bool>, old_: seq<Window>, now: seq<Window>, d: Damage)
    requires |prev| == |have| == |have'| == MAX_WINDOWS && Distinct(old_) && Distinct(now)
    requires Snapshots(prev, have, old_) && AllDamaged(prev, have, now, d) && !d.has
    requires forall s: nat :: s < MAX_WINDOWS ==> have'[s] == (have[s] && Present(now, s))
    ensures Snapshots(prev, have', now)
  {
    hide CoveredBy;
    forall i | 0 <= i < |now| && NonEmpty(now[i].rect)
      ensures have'[now[i].id] && prev[now[i].id] == now[i].rect
    {
      assert Damaged(prev, have, now[i], d);
      if CoveredBy(now[i].rect, d) { NoDamageNoPoints(d, now[i].rect); }
      assert Present(now, now[i].id);
    }
    forall s | 0 <= s < MAX_WINDOWS && have'[s] && NonEmpty(prev[s]) ensures InSlot(now, s, prev[s]) {
      var i :| 0 <= i < |now| && now[i].id == s;
      assert Damaged(prev, have, now[i], d);
      if CoveredBy(prev[s], d) { NoDamageNoPoints(d, prev[s]); }
    }
  }

  lemma DamagedMore(prev: seq<Rect>, have: seq<bool>, v: Window, d: Damage, e: Damage)
    requires |prev| == |have| == MAX_WINDOWS && v.id < MAX_WINDOWS && Damaged(prev, have, v, d)
    requires forall px, py :: InDamage(d, px, py) ==> InDamage(e, px, py)
    ensures Damaged(prev, have, v, e)
  {
  }

  lemma AddedDamage(prev: seq<Rect>, have: seq<bool>, v: Window, d: Damage)
    requires |prev| == |have| == MAX_WINDOWS && v.id < MAX_WINDOWS
    ensures var e := AddWindow(prev, have, v, d);
            && Damaged(prev, have, v, e) && (d.has ==> e.has)
            && forall px, py :: InDamage(d, px, py) ==> InDamage(e, px, py)
  {
  }

  // Where nothing was damaged the picture is the one on the screen.
  lemma PictureOutside(
    decor: Decor, was: Scene, s: Scene, prev: seq<Rect>, have: seq<bool>, d: Damage, width: int, px: int, py: int)
    requires |prev| == |have| == MAX_WINDOWS && Distinct(was.wins) && Distinct(s.wins) && Flagged(was.wins, s.wins)
    requires Snapshots(prev, have, was.wins) && AllDamaged(prev, have, s.wins, d) && !InDamage(d, px, py)
    requires was.clock == s.clock || CoveredBy(Rect(0, 0, width, TASKBAR_HEIGHT), d)
    requires 0 <= px < width && 0 <= py
    ensures Picture(decor, was, px, py) == Picture(decor, s, px, py)
  {
    hide Snapshots, AllDamaged, Flagged, Untouched, Painted, Distinct;
    if py < TASKBAR_HEIGHT {
      assert Inside(Rect(0, 0, width, TASKBAR_HEIGHT), px, py);
    } else {
      OutsideDamage(prev, have, was.wins, s.wins, d, px, py);
      UntouchedPixel(decor, was.wins, s.wins, px, py);
    }
  }

  // The windows whose flags a frame clears.
  predicate Overlaps(r: Rect, d: Damage) {
    !(r.x + r.w <= d.x0 || r.x >= d.x1 || r.y + r.h <= d.y0 || r.y >= d.y1)
  }

  // The windows that have a pixel in the damage.
  lemma OverlapsMeans(r: Rect, d: Damage)
    requires NonEmpty(r) && d.has && d.x0 < d.x1 && d.y0 < d.y1
    ensures Overlaps(r, d) <==> exists px, py :: Inside(r, px, py) && InDamage(d, px, py)
  {
    if Overlaps(r, d) {
      var px, py := Max(r.x, d.x0), Max(r.y, d.y0);
      assert Inside(r, px, py) && InDamage(d, px, py);
    }
  }

  function Unflagged(v: Window): Window { v.(dirty := false, contentDirty := false) }

  function Cleared(v: Window, d: Damage): Window {
    if d.has && Overlaps(v.rect, d) && v.visible then Unflagged(v) else v
  }

  // The windows that can be seen and have a pixel in the damage lose both flags, and nothing else changes.
  lemma ClearedExactly(v: Window, d: Damage)
    requires NonEmpty(v.rect) && (d.has ==> d.x0 < d.x1 && d.y0 < d.y1)
    ensures Cleared(v, d) ==
            if v.visible && exists px, py :: Inside(v.rect, px, py) && InDamage(d, px, py)
            then v.(dirty := false, contentDirty := false) else v
  {
    if d.has { OverlapsMeans(v.rect, d); }
  }

  // A flagged window that can be seen is always repainted.
  lemma FlaggedIsCleared(prev: seq<Rect>, have: seq<bool>, v: Window, d: Damage)
    requires |prev| == |have| == MAX_WINDOWS && v.id < MAX_WINDOWS && Damaged(prev, have, v, d)
    requires v.visible && NonEmpty(v.rect) && v.dirty
    ensures d.has && Cleared(v, d) == Unflagged(v)
  {
    assert CoveredBy(v.rect, d);
    assert Inside(v.rect, v.rect.x, v.rect.y);
  }

  lemma AllFlaggedCleared(prev: seq<Rect>, have: seq<bool>, wins: seq<Window>, d: Damage)
    requires |prev| == |have| == MAX_WINDOWS && Distinct(wins) && AllDamaged(prev, have, wins, d)
    ensures forall i :: 0 <= i < |wins| && wins[i].visible && NonEmpty(wins[i].rect) && wins[i].dirty ==>
              d.has && Cleared(wins[i], d) == Unflagged(wins[i])
    ensures forall i :: 0 <= i < |wins| ==> Cleared(wins[i], d) == wins[i] || Cleared(wins[i], d) == Unflagged(wins[i])
  {
    forall i | 0 <= i < |wins| && wins[i].visible && NonEmpty(wins[i].rect) && wins[i].dirty
      ensures d.has && Cleared(wins[i], d) == Unflagged(wins[i])
    {
      FlaggedIsCleared(prev, have, wins[i], d);
    }
  }

  class Compositor {
    const screen: Surface
    const decor: Decor
    const prev: array<Rect>
    const havePrev: array<bool>
    var firstFrame: bool
    var lastClock: nat
    ghost var shown: Scene // the scene on the screen

    constructor (s: Surface, d: Decor, clock: nat)
      requires s.Valid() && s.screen != null && s.width > 0
      ensures Valid() && firstFrame && screen == s && decor == d && fresh(prev) && fresh(havePrev)
    {
      screen, decor := s, d;
      prev := new Rect[MAX_WINDOWS](_ => Rect(0, 0, 0, 0));
      havePrev := new bool[MAX_WINDOWS](_ => false);
      firstFrame := true;
      lastClock := clock;
      shown := Scene([], clock);
    }

    ghost predicate Valid()
      reads this, prev, havePrev, screen, screen.Frame()
    {
      && prev.Length == havePrev.Length == MAX_WINDOWS
      && screen.Valid() && screen.screen != null
      && Distinct(shown.wins) && Snapshots(prev[..], havePrev[..], shown.wins) && shown.clock == lastClock
    }

    // The back buffer is the picture of the scene, repainted from scratch.
    ghost predicate ShowsScene(s: Scene)
      requires screen.Valid()
      reads this, screen, screen.Frame()
    {
      forall px, py :: screen.InSurface(px, py) ==> screen.pixels[py, px] == Picture(decor, s, px, py)
    }

    // Pass 1: the windows of the new frame.
    method DamageOfWindows(wins: seq<Window>, d0: Damage) returns (d: Damage, seen: array<bool>)
      requires prev.Length == havePrev.Length == MAX_WINDOWS && Distinct(wins)
      ensures fresh(seen) && seen.Length == MAX_WINDOWS
      ensures forall s :: 0 <= s < MAX_WINDOWS ==> (seen[s] <==> Present(wins, s))
      ensures forall px, py :: InDamage(d0, px, py) ==> InDamage(d, px, py)
      ensures d0.has ==> d.has
      ensures forall i :: 0 <= i < |wins| ==> Damaged(prev[..], havePrev[..], wins[i], d)
      ensures d == AddWindows(prev[..], havePrev[..], wins, |wins|, d0)
    {
      d := d0;
      seen := new bool[MAX_WINDOWS](_ => false);
      for n := 0 to |wins|
        invariant forall s :: 0 <= s < MAX_WINDOWS ==> (seen[s] <==> Present(wins[..n], s))
        invariant forall px, py :: InDamage(d0, px, py) ==> InDamage(d, px, py)
        invariant d0.has ==> d.has
        invariant forall i :: 0 <= i < n ==> Damaged(prev[..], havePrev[..], wins[i], d)
        invariant d == AddWindows(prev[..], havePrev[..], wins, n, d0)
      {
        hide Extend, Damaged;
        var v := wins[n];
        seen[v.id] := true;
        ghost var was := d;
        AddedDamage(prev[..], havePrev[..], v, was);
        if havePrev[v.id] {
          var p := prev[v.id];
          if p != v.rect || v.dirty {
            d := Extend(Extend(d, p), v.rect);
          } else if v.contentDirty {
            d := Extend(d, v.content);
          }
        } else {
          d := Extend(d, v.rect);
        }
        assert d == AddWindow(prev[..], havePrev[..], v, was);
        forall i | 0 <= i < n ensures Damaged(prev[..], havePrev[..], wins[i], d) {
          DamagedMore(prev[..], havePrev[..], wins[i], was, d);
        }
      }
    }

    // Pass 2: slots whose window is gone.
    method DamageOfGone(seen: array<bool>, d0: Damage, ghost wins: seq<Window>) returns (d: Damage)
      requires prev.Length == havePrev.Length == seen.Length == MAX_WINDOWS && seen != havePrev && Distinct(wins)
      requires forall s :: 0 <= s < MAX_WINDOWS ==> (seen[s] <==> Present(wins, s))
      requires forall i :: 0 <= i < |wins| ==> Damaged(prev[..], havePrev[..], wins[i], d0)
      modifies havePrev
      ensures forall px, py :: InDamage(d0, px, py) ==> InDamage(d, px, py)
      ensures d0.has ==> d.has
      ensures forall s: nat :: s < MAX_WINDOWS ==> havePrev[..][s] == (old(havePrev[..])[s] && Present(wins, s))
      ensures AllDamaged(prev[..], old(havePrev[..]), wins, d)
      ensures d == AddGone(prev[..], old(havePrev[..]), wins, MAX_WINDOWS, d0)
    {
      d := d0;
      ghost var have := havePrev[..];
      for i := 0 to MAX_WINDOWS
        invariant forall px, py :: InDamage(d0, px, py) ==> InDamage(d, px, py)
        invariant d0.has ==> d.has
        invariant forall s :: 0 <= s < MAX_WINDOWS ==>
                    havePrev[s] == (old(havePrev[s]) && (s < i ==> seen[s]))
        invariant forall s :: 0 <= s < i && old(havePrev[s]) && !seen[s] ==> CoveredBy(prev[s], d)
        invariant d == AddGone(prev[..], have, wins, i, d0)
      {
        if havePrev[i] && !seen[i] {
          d := Extend(d, prev[i]);
          havePrev[i] := false;
        }
      }
      forall i | 0 <= i < |wins| ensures Damaged(prev[..], have, wins[i], d) {
        DamagedMore(prev[..], have, wins[i], d0, d);
      }
    }

    // The windows of this frame become the snapshots.
    method SaveSnapshots(wins: seq<Window>)
      requires prev.Length == havePrev.Length == MAX_WINDOWS && Distinct(wins)
      requires forall s: nat :: s < MAX_WINDOWS && havePrev[s] ==> Present(wins, s)
      modifies prev, havePrev
      ensures Snapshots(prev[..], havePrev[..], wins)
    {
      for n := 0 to |wins|
        invariant forall i :: 0 <= i < n ==> havePrev[wins[i].id] && prev[wins[i].id] == wins[i].rect
        invariant forall s: nat :: s < MAX_WINDOWS && havePrev[s] ==> Present(wins, s)
      {
        var v := wins[n];
        prev[v.id] := v.rect;
        havePrev[v.id] := true;
        assert Present(wins, v.id);
      }
      forall s | 0 <= s < MAX_WINDOWS && havePrev[s] ensures InSlot(wins, s, prev[s]) {
        var i :| 0 <= i < |wins| && wins[i].id == s;
      }
    }

    // Painting a window clears its flags.
    static method ClearFlags(wins: seq<Window>, d: Damage) returns (r: seq<Window>)
      ensures |r| == |wins| && forall i :: 0 <= i < |wins| ==> r[i] == Cleared(wins[i], d)
    {
      r := [];
      for i := 0 to |wins|
        invariant |r| == i && forall k :: 0 <= k < i ==> r[k] == Cleared(wins[k], d)
      {
        r := r + [Cleared(wins[i], d)];
      }
    }

    // Paints a region of the surface, inside the clip, with a colour for each pixel; the
    // drawing primitives it stands for report what they touch.
    method PaintRegion(r: Rect, look: (int, int) -> nat)
      requires screen.Valid() && screen.screen != null
      modifies screen.pixels, screen`isDirty, screen.screen, screen.screen.rects
      ensures screen.Valid()
      ensures forall px, py :: screen.InSurface(px, py) ==>
                screen.pixels[py, px] ==
                if screen.InClip(px, py) && Inside(r, px, py) then look(px, py) else old(screen.pixels[py, px])
      ensures forall px, py :: old(screen.screen.Covers(px, py)) ==> screen.screen.Covers(px, py)
    {
      var cx0, cy0 := screen.clipX, screen.clipY;
      var cx1, cy1 := cx0 + screen.clipW, cy0 + screen.clipH;
      forall py, px |
        && 0 <= py < screen.height && 0 <= px < screen.width
        && cx0 <= px < cx1 && cy0 <= py < cy1 && Inside(r, px, py)
      {
        screen.pixels[py, px] := look(px, py);
      }
      screen.MarkIfScreen(r.x, r.y, r.w, r.h);
    }

    // Repaints everything inside the clip: background, the windows that meet the damage from
    // back to front, taskbar.
    method Repaint(s: Scene, d: Damage)
      requires screen.Valid() && screen.screen != null && d.has
      requires forall px, py :: screen.InClip(px, py) <==> screen.InSurface(px, py) && InDamage(d, px, py)
      modifies screen.pixels, screen`isDirty, screen`dirtyX0, screen`dirtyY0, screen`dirtyX1, screen`dirtyY1,
        screen.screen, screen.screen.rects
      ensures screen.Valid()
      ensures forall px, py :: screen.InSurface(px, py) ==>
                screen.pixels[py, px] ==
                if InDamage(d, px, py) then Picture(decor, s, px, py) else old(screen.pixels[py, px])
      ensures forall px, py :: old(screen.screen.Covers(px, py)) ==> screen.screen.Covers(px, py)
    {
      hide Painted;
      var whole := Rect(0, 0, screen.width, screen.height);
      PaintRegion(Rect(d.x0, d.y0, d.x1 - d.x0, d.y1 - d.y0), (px, py) => DESKTOP_BG);
      PaintRegion(whole, decor.bg);
      NothingPainted(decor, s.wins);
      for i := 0 to |s.wins|
        invariant screen.Valid()
        invariant forall px, py :: screen.InSurface(px, py) ==>
                    screen.pixels[py, px] ==
                    if InDamage(d, px, py) then Painted(decor, s.wins, i, px, py) else old(screen.pixels[py, px])
        invariant forall px, py :: old(screen.screen.Covers(px, py)) ==> screen.screen.Covers(px, py)
      {
        var v := s.wins[i];
        OneMorePainted(decor, s.wins, i);
        if Overlaps(v.rect, d) && v.visible {
          PaintRegion(v.rect, v.look);
        }
      }
      PaintRegion(Rect(0, 0, screen.width, TASKBAR_HEIGHT), (px, py) => decor.bar(s.clock, px, py));
    }

    // Repaints the damage under a clip and reports it.
    method Redraw(s: Scene, d: Damage)
      requires screen.Valid() && screen.screen != null && d.has && FullClip()
      modifies screen, screen.pixels, screen.screen, screen.screen.rects
      ensures screen.Valid() && FullClip()
      ensures forall px, py :: screen.InSurface(px, py) ==>
                screen.pixels[py, px] ==
                if InDamage(d, px, py) then Picture(decor, s, px, py) else old(screen.pixels[py, px])
      ensures forall px, py :: screen.InSurface(px, py) && screen.pixels[py, px] != old(screen.pixels[py, px]) ==>
                screen.screen.Covers(px, py)
      ensures forall px, py :: old(screen.screen.Covers(px, py)) ==> screen.screen.Covers(px, py)
    {
      hide Picture;
      screen.SetClip(d.x0, d.y0, d.x1 - d.x0, d.y1 - d.y0);
      Repaint(s, d);
      screen.ResetClip();
      screen.screen.Mark(d.x0, d.y0, d.x1 - d.x0, d.y1 - d.y0);
    }

    // No clip is in force.
    ghost predicate FullClip()
      reads screen
    {
      forall px, py :: screen.InClip(px, py) <==> screen.InSurface(px, py)
    }

    // Both passes: the damage of a frame.  Where every change was flagged, the picture outside the
    // damage has not changed.
    method FindDamage(s: Scene) returns (d: Damage)
      requires Valid() && Distinct(s.wins)
      modifies this`firstFrame, this`lastClock, havePrev
      ensures !firstFrame && lastClock == s.clock
      ensures d == FrameDamage(prev[..], old(havePrev[..]), s.wins,
                     StartDamage(old(firstFrame), old(lastClock) != s.clock, screen.width, screen.height))
      ensures AllDamaged(prev[..], old(havePrev[..]), s.wins, d)
      ensures forall t: nat :: t < MAX_WINDOWS ==> havePrev[..][t] == (old(havePrev[..])[t] && Present(s.wins, t))
      ensures old(firstFrame) || Flagged(shown.wins, s.wins) ==>
                forall px, py :: screen.InSurface(px, py) && !InDamage(d, px, py) ==>
                  !old(firstFrame) && Picture(decor, shown, px, py) == Picture(decor, s, px, py)
    {
      hide Snapshots, AllDamaged, Flagged, Damaged, Picture, Present;
      ghost var P, H := prev[..], havePrev[..];
      d := NO_DAMAGE;
      if firstFrame {
        d := Damage(true, 0, 0, screen.width, screen.height);
        firstFrame := false;
      }
      if s.clock != lastClock {
        lastClock := s.clock;
        d := Extend(d, Rect(0, 0, screen.width, TASKBAR_HEIGHT));
      }
      var seen;
      d, seen := DamageOfWindows(s.wins, d);
      d := DamageOfGone(seen, d, s.wins);
      if old(!firstFrame) && Flagged(shown.wins, s.wins) {
        forall px, py | screen.InSurface(px, py) && !InDamage(d, px, py)
          ensures Picture(decor, shown, px, py) == Picture(decor, s, px, py)
        {
          PictureOutside(decor, shown, s, P, H, d, screen.width, px, py);
        }
      }
    }

    // compositor_compose: the damage is repainted from scratch, the rest of the back buffer stays.  When
    // every change since the last frame was flagged, all of it is then the picture of the new scene.
    // Every pixel that changed is due for VRAM.
    method Compose(s: Scene) returns (wins: seq<Window>)
      requires Valid() && Distinct(s.wins) && FullClip()
      modifies this`firstFrame, this`lastClock, this`shown, prev, havePrev
      modifies screen, screen.pixels, screen.screen, screen.screen.rects
      ensures Valid() && FullClip() && !firstFrame && shown == s
      ensures var d := FrameDamage(old(prev[..]), old(havePrev[..]), s.wins,
                         StartDamage(old(firstFrame), old(lastClock) != s.clock, screen.width, screen.height));
              forall px, py :: screen.InSurface(px, py) ==>
                screen.pixels[py, px] ==
                if InDamage(d, px, py) then Picture(decor, s, px, py) else old(screen.pixels[py, px])
      ensures old(firstFrame) || (old(ShowsScene(shown)) && Flagged(old(shown).wins, s.wins)) ==> ShowsScene(s)
      ensures forall px, py :: screen.InSurface(px, py) && screen.pixels[py, px] != old(screen.pixels[py, px]) ==>
                screen.screen.Covers(px, py)
      ensures forall px, py :: old(screen.screen.Covers(px, py)) ==> screen.screen.Covers(px, py)
      ensures forall i :: 0 <= i < |wins| && wins[i].visible && NonEmpty(wins[i].rect) ==> !wins[i].dirty
      ensures |wins| == |s.wins|
      ensures forall i :: 0 <= i < |wins| ==> wins[i] == s.wins[i] || wins[i] == Unflagged(s.wins[i])
    {
      hide Snapshots, AllDamaged, Flagged, Picture, Cleared, Present, FrameDamage;
      ghost var was, P, H := shown, prev[..], havePrev[..];
      var d := FindDamage(s);
      wins := s.wins;
      if !d.has {
        SnapshotsStand(P, H, havePrev[..], was.wins, s.wins, d);
      } else {
        Redraw(s, d);
        SaveSnapshots(s.wins);
        wins := ClearFlags(s.wins, d);
      }
      AllFlaggedCleared(P, H, s.wins, d);
      shown := s;
    }
  }

  lemma NothingPainted(d: Decor, wins: seq<Window>)
    ensures forall px, py :: Painted(d, wins, 0, px, py) == d.bg(px, py)
  {
  }

  lemma OneMorePainted(d: Decor, wins: seq<Window>, i: nat)
    requires i < |wins|
    ensures forall px, py ::
              Painted(d, wins, i + 1, px, py) ==
              if Paints(wins[i], px, py) then wins[i].look(px, py) else Painted(d, wins, i, px, py)
  {
  }
}
