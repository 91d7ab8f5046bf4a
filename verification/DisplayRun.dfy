// Whole runs of the display: drawing on the screen's surface, presenting and refreshing in
// any order.
module DisplayRun {
  import opened Dirty
  import opened Display
  import opened Gfx
  import L = Line

  // What a blit copies from.
  datatype Picture = Picture(width: nat, height: nat, color: (int, int) -> nat)

  // Marked stands for any other write to the shadow buffer: inside a rectangle that is then marked, it
  // makes of each pixel whatever it likes.
  datatype Event =
    | Fill(x: int, y: int, w: int, h: int, color: nat)
    | Line(x0: int, y0: int, x1: int, y1: int, color: nat)
    | Disc(cx: int, cy: int, r: int, color: nat)
    | Blit(dx: int, dy: int, src: Picture, sx: int, sy: int, w: int, h: int)
    | Marked(area: Rect, look: (int, int, nat) -> nat)
    | Clip(x: int, y: int, w: int, h: int)
    | Unclip
    | Present
    | Refresh(mx: int, my: int)

  // The surface draws into the screen's shadow buffer and marks the screen's dirty list.
  ghost predicate Wired(screen: Screen, surf: Surface)
    reads screen, screen.dirty, screen.dirty.rects, surf, surf.Frame()
  {
    && screen.Valid() && surf.Valid()
    && surf.pixels == screen.shadow && surf.screen == screen.dirty
    && surf.width == screen.width && surf.height == screen.height
  }

  // The surface at one pixel: may it be drawn on, and which colour does it have?
  datatype Pixel = Pixel(open: bool, color: nat)

  ghost function PixelOf(surf: Surface, px: int, py: int): Pixel
    requires surf.Valid() && surf.InSurface(px, py)
    reads surf, surf.Frame()
  {
    Pixel(surf.InClip(px, py), surf.pixels[py, px])
  }

  // What an event makes of one pixel: drawing colours the points of the shape that the clip
  // leaves open; presenting, refreshing and moving the cursor change nothing.
  ghost function After(e: Event, p: Pixel, px: int, py: int): Pixel {
    match e
    case Fill(x, y, w, h, color) => if p.open && Inside(Rect(x, y, w, h), px, py) then p.(color := color) else p
    case Line(x0, y0, x1, y1, color) =>
      if p.open && L.OnLine(x0, y0, x1, y1, L.Steps(x0, y0, x1, y1) + 1, px, py) then p.(color := color) else p
    case Disc(cx, cy, r, color) => if p.open && r > 0 && InDisc(px - cx, py - cy, r) then p.(color := color) else p
    case Blit(dx, dy, src, sx, sy, w, h) =>
      var x, y := sx + px - dx, sy + py - dy;
      if p.open && Inside(Rect(dx, dy, w, h), px, py) && 0 <= x < src.width && 0 <= y < src.height
      then p.(color := src.color(x, y)) else p
    case Marked(area, look) => if Inside(area, px, py) then p.(color := look(px, py, p.color)) else p
    case Clip(x, y, w, h) => p.(open := p.open && Inside(Rect(x, y, w, h), px, py))
    case Unclip => p.(open := true)
    case Present => p
    case Refresh(_, _) => p
  }

  ghost function AfterAll(events: seq<Event>, p: Pixel, px: int, py: int): Pixel {
    if events == [] then p
    else After(events[|events| - 1], AfterAll(events[..|events| - 1], p, px, py), px, py)
  }

  lemma OneMore(events: seq<Event>, i: nat, p: Pixel, px: int, py: int)
    requires i < |events|
    ensures AfterAll(events[..i + 1], p, px, py) == After(events[i], AfterAll(events[..i], p, px, py), px, py)
  {
    assert events[..i + 1][..i] == events[..i];
  }

  method DrawFill(screen: Screen, surf: Surface, x: int, y: int, w: int, h: int, color: nat)
    requires Wired(screen, surf) && screen.InSync()
    modifies screen.shadow, screen.dirty, screen.dirty.rects, surf
    ensures Wired(screen, surf) && screen.InSync()
    ensures forall px, py :: surf.InSurface(px, py) ==>
              PixelOf(surf, px, py) == After(Fill(x, y, w, h, color), old(PixelOf(surf, px, py)), px, py)
  {
    hide Inside;
    surf.FillRect(x, y, w, h, color);
    forall px, py |
      screen.OnScreen(px, py) && !screen.dirty.Covers(px, py) && !InCursor(screen.prevMx, screen.prevMy, px, py)
      ensures screen.Seen(px, py) == Shown(screen.bpp, screen.shadow[py, px])
    {
      assert !surf.Reported(px, py) && !old(surf.Reported(px, py)) && surf.InSurface(px, py);
    }
  }

  method DrawLine(screen: Screen, surf: Surface, x0: int, y0: int, x1: int, y1: int, color: nat)
    requires Wired(screen, surf) && screen.InSync()
    modifies screen.shadow, screen.dirty, screen.dirty.rects, surf
    ensures Wired(screen, surf) && screen.InSync()
    ensures forall px, py :: surf.InSurface(px, py) ==>
              PixelOf(surf, px, py) == After(Line(x0, y0, x1, y1, color), old(PixelOf(surf, px, py)), px, py)
  {
    hide L.OnLine, L.Steps;
    surf.DrawLine(x0, y0, x1, y1, color);
    forall px, py |
      screen.OnScreen(px, py) && !screen.dirty.Covers(px, py) && !InCursor(screen.prevMx, screen.prevMy, px, py)
      ensures screen.Seen(px, py) == Shown(screen.bpp, screen.shadow[py, px])
    {
      assert !surf.Reported(px, py) && !old(surf.Reported(px, py)) && surf.InSurface(px, py);
    }
  }

  method DrawDisc(screen: Screen, surf: Surface, cx: int, cy: int, r: int, color: nat)
    requires Wired(screen, surf) && screen.InSync()
    modifies screen.shadow, screen.dirty, screen.dirty.rects, surf
    ensures Wired(screen, surf) && screen.InSync()
    ensures forall px, py :: surf.InSurface(px, py) ==>
              PixelOf(surf, px, py) == After(Disc(cx, cy, r, color), old(PixelOf(surf, px, py)), px, py)
  {
    hide InDisc;
    surf.FillCircle(cx, cy, r, color);
    forall px, py |
      screen.OnScreen(px, py) && !screen.dirty.Covers(px, py) && !InCursor(screen.prevMx, screen.prevMy, px, py)
      ensures screen.Seen(px, py) == Shown(screen.bpp, screen.shadow[py, px])
    {
      assert !surf.Reported(px, py) && !old(surf.Reported(px, py)) && surf.InSurface(px, py);
    }
  }

  method DrawBlit(
    screen: Screen, surf: Surface, dx: int, dy: int, src: Picture, sx: int, sy: int, w: int, h: int)
    requires Wired(screen, surf) && screen.InSync()
    modifies screen.shadow, screen.dirty, screen.dirty.rects, surf
    ensures Wired(screen, surf) && screen.InSync()
    ensures forall px, py :: surf.InSurface(px, py) ==>
              PixelOf(surf, px, py) == After(Blit(dx, dy, src, sx, sy, w, h), old(PixelOf(surf, px, py)), px, py)
  {
    hide Inside;
    var buffer := new nat[src.height, src.width]((y, x) => src.color(x, y));
    var source := new Surface(src.width, src.height, buffer, null);
    surf.Blit(dx, dy, source, sx, sy, w, h);
    forall px, py |
      screen.OnScreen(px, py) && !screen.dirty.Covers(px, py) && !InCursor(screen.prevMx, screen.prevMy, px, py)
      ensures screen.Seen(px, py) == Shown(screen.bpp, screen.shadow[py, px])
    {
      assert !surf.Reported(px, py) && !old(surf.Reported(px, py)) && surf.InSurface(px, py);
    }
  }

  method DrawMarked(screen: Screen, surf: Surface, area: Rect, look: (int, int, nat) -> nat)
    requires Wired(screen, surf) && screen.InSync()
    modifies screen.shadow, screen.dirty, screen.dirty.rects, surf
    ensures Wired(screen, surf) && screen.InSync()
    ensures forall px, py :: surf.InSurface(px, py) ==>
              PixelOf(surf, px, py) == After(Marked(area, look), old(PixelOf(surf, px, py)), px, py)
  {
    hide Inside;
    forall py, px | 0 <= py < screen.height && 0 <= px < screen.width && Inside(area, px, py) {
      screen.shadow[py, px] := look(px, py, screen.shadow[py, px]);
    }
    screen.dirty.Mark(area.x, area.y, area.w, area.h);
    assert area == Rect(area.x, area.y, area.w, area.h);
  }

  method Step(screen: Screen, surf: Surface, e: Event)
    requires Wired(screen, surf) && screen.InSync() && (e.Present? ==> screen.bpp == 32)
    modifies screen`prevMx, screen`prevMy, screen.shadow, screen.vram, screen.dirty, screen.dirty.rects, surf
    ensures Wired(screen, surf) && screen.InSync()
    ensures forall px, py :: surf.InSurface(px, py) ==>
              PixelOf(surf, px, py) == After(e, old(PixelOf(surf, px, py)), px, py)
    ensures e.Refresh? ==> screen.Shows(e.mx, e.my)
  {
    hide Inside, Overlay, L.OnLine, L.Steps, InDisc;
    match e
    case Fill(x, y, w, h, color) => DrawFill(screen, surf, x, y, w, h, color);
    case Line(x0, y0, x1, y1, color) => DrawLine(screen, surf, x0, y0, x1, y1, color);
    case Disc(cx, cy, r, color) => DrawDisc(screen, surf, cx, cy, r, color);
    case Blit(dx, dy, src, sx, sy, w, h) => DrawBlit(screen, surf, dx, dy, src, sx, sy, w, h);
    case Marked(area, look) => DrawMarked(screen, surf, area, look);
    case Clip(x, y, w, h) => surf.SetClip(x, y, w, h);
    case Unclip => surf.ResetClip();
    case Present => screen.Present();
    case Refresh(mx, my) => screen.Refresh(mx, my);
  }

  // After any sequence of events the shadow buffer holds what drawing alone makes of it, pixel
  // by pixel, and VRAM agrees with it except where a copy is still due; when the last event is
  // a refresh, all of VRAM shows that picture under the cursor.
  method Run(screen: Screen, surf: Surface, events: seq<Event>)
    requires Wired(screen, surf) && screen.InSync()
    requires forall i :: 0 <= i < |events| && events[i].Present? ==> screen.bpp == 32
    modifies screen`prevMx, screen`prevMy, screen.shadow, screen.vram, screen.dirty, screen.dirty.rects, surf
    ensures Wired(screen, surf) && screen.InSync()
    ensures forall px, py :: surf.InSurface(px, py) ==>
              PixelOf(surf, px, py) == AfterAll(events, old(PixelOf(surf, px, py)), px, py)
    ensures events != [] && events[|events| - 1].Refresh? ==>
              var limit := if screen.bpp == 24 then 0x100_0000 else 0x1_0000_0000;
              var e := events[|events| - 1];
              forall px, py :: screen.OnScreen(px, py) ==>
                var c := AfterAll(events, old(PixelOf(surf, px, py)), px, py).color;
                && screen.Seen(px, py) == Shown(screen.bpp, Overlay(e.mx, e.my, px, py, c))
                && (c < limit ==> screen.Seen(px, py) == Overlay(e.mx, e.my, px, py, c))
  {
    hide After, AfterAll, Overlay, Shown;
    ShownWhole(screen.bpp, events);
    RunNone(events);
    for i := 0 to |events|
      invariant Wired(screen, surf) && screen.InSync()
      invariant forall px, py :: surf.InSurface(px, py) ==>
                  PixelOf(surf, px, py) == AfterAll(events[..i], old(PixelOf(surf, px, py)), px, py)
      invariant i > 0 && events[i - 1].Refresh? ==> screen.Shows(events[i - 1].mx, events[i - 1].my)
    {
      Step(screen, surf, events[i]);
      forall px, py | surf.InSurface(px, py)
        ensures PixelOf(surf, px, py) == AfterAll(events[..i + 1], old(PixelOf(surf, px, py)), px, py)
      {
        OneMore(events, i, old(PixelOf(surf, px, py)), px, py);
      }
    }
    assert events[..|events|] == events;
  }

  lemma ShownWhole(bpp: nat, events: seq<Event>)
    ensures events != [] && events[|events| - 1].Refresh? ==>
              var e := events[|events| - 1];
              forall px, py, c :: c < (if bpp == 24 then 0x100_0000 else 0x1_0000_0000) ==>
                Shown(bpp, Overlay(e.mx, e.my, px, py, c)) == Overlay(e.mx, e.my, px, py, c)
  {
    if events != [] && events[|events| - 1].Refresh? {
      OverlayShown(bpp, events[|events| - 1].mx, events[|events| - 1].my);
    }
  }

  lemma RunNone(events: seq<Event>)
    ensures forall p, px, py :: AfterAll(events[..0], p, px, py) == p
  {
  }
}
