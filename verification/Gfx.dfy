// Surfaces and the drawing primitives, each proved against the set of pixels it paints.
module Gfx {
  import opened Dirty
  import opened Line

  class Surface {
    const width: nat
    const height: nat
    const pixels: array2<nat>          // pixels[y, x]
    const screen: DirtyList?           // the dirty list, when this is the screen's surface
    var clipX: int
    var clipY: int
    var clipW: int
    var clipH: int
    var isDirty: bool
    var dirtyX0: int
    var dirtyY0: int
    var dirtyX1: int
    var dirtyY1: int

    constructor (w: nat, h: nat, buffer: array2<nat>, list: DirtyList?)
      requires buffer.Length0 == h && buffer.Length1 == w
      requires list != null ==> list.Valid() && list.SameScreen(w, h) && w > 0 && h > 0
      ensures Valid() && width == w && height == h && pixels == buffer && screen == list && !isDirty
      ensures forall px, py :: InClip(px, py) <==> InSurface(px, py)
    {
      width, height, pixels, screen := w, h, buffer, list;
      isDirty := false;
      clipX, clipY, clipW, clipH := 0, 0, w, h;
    }

    // The objects a drawing operation writes.
    ghost function Frame(): set<object> {
      {this, pixels} + if screen == null then {} else {screen, screen.rects}
    }

    // The clip rectangle lies inside the surface.
    ghost predicate Valid()
      reads Frame()
    {
      && pixels.Length0 == height && pixels.Length1 == width
      && clipW >= 0 && clipH >= 0 && clipX >= 0 && clipY >= 0
      && (clipW > 0 ==> clipX + clipW <= width) && (clipH > 0 ==> clipY + clipH <= height)
      && (screen != null ==> screen.Valid() && screen.SameScreen(width, height) && width > 0 && height > 0)
    }

    predicate InSurface(px: int, py: int) { 0 <= px < width && 0 <= py < height }

    ghost predicate InClip(px: int, py: int)
      reads this
    {
      clipX <= px < clipX + clipW && clipY <= py < clipY + clipH
    }

    ghost predicate InDirtyBox(px: int, py: int)
      reads this
    {
      isDirty && dirtyX0 <= px < dirtyX1 && dirtyY0 <= py < dirtyY1
    }

    // The change of this pixel is on record: in the surface's dirty box or, for the screen, in
    // the dirty list.
    ghost predicate Reported(px: int, py: int)
      requires Valid()
      reads Frame()
    {
      if screen == null then InDirtyBox(px, py) else screen.Covers(px, py)
    }

    // surface_reset_clip
    method ResetClip()
      requires Valid()
      modifies this`clipX, this`clipY, this`clipW, this`clipH
      ensures Valid() && forall px, py :: InClip(px, py) <==> InSurface(px, py)
    {
      clipX, clipY, clipW, clipH := 0, 0, width, height;
    }

    // surface_set_clip: exactly the points of the old clip that lie in the rectangle remain.
    method SetClip(x: int, y: int, w: int, h: int)
      requires Valid()
      modifies this`clipX, this`clipY, this`clipW, this`clipH
      ensures Valid()
      ensures forall px, py :: InClip(px, py) <==> old(InClip(px, py)) && Inside(Rect(x, y, w, h), px, py)
    {
      var x0 := if x > clipX then x else clipX;
      var y0 := if y > clipY then y else clipY;
      var x1 := if x + w < clipX + clipW then x + w else clipX + clipW;
      var y1 := if y + h < clipY + clipH then y + h else clipY + clipH;
      if x0 < 0 { x0 := 0; }
      if y0 < 0 { y0 := 0; }
      if x1 > width { x1 := width; }
      if y1 > height { y1 := height; }
      clipX, clipY := x0, y0;
      clipW := if x1 > x0 then x1 - x0 else 0;
      clipH := if y1 > y0 then y1 - y0 else 0;
    }

    // track_dirty_pixel
    method Track(x: int, y: int)
      modifies this`isDirty, this`dirtyX0, this`dirtyY0, this`dirtyX1, this`dirtyY1
      ensures InDirtyBox(x, y)
      ensures forall px, py :: old(InDirtyBox(px, py)) ==> InDirtyBox(px, py)
    {
      if !isDirty {
        dirtyX0, dirtyY0, dirtyX1, dirtyY1 := x, y, x + 1, y + 1;
        isDirty := true;
      } else {
        if x < dirtyX0 { dirtyX0 := x; }
        if y < dirtyY0 { dirtyY0 := y; }
        if x + 1 > dirtyX1 { dirtyX1 := x + 1; }
        if y + 1 > dirtyY1 { dirtyY1 := y + 1; }
      }
    }

    // mark_if_screen: on the screen, the rectangle goes to the dirty list.
    method MarkIfScreen(x: int, y: int, w: int, h: int)
      requires Valid()
      modifies this`isDirty
      modifies if screen == null then {} else {screen, screen.rects}
      ensures Valid()
      ensures screen == null ==> isDirty == old(isDirty)
      ensures forall px, py :: old(Reported(px, py)) ==> Reported(px, py)
      ensures screen != null ==> forall px, py ::
                old(screen.Covers(px, py)) || (InSurface(px, py) && Inside(Rect(x, y, w, h), px, py))
                ==> screen.Covers(px, py)
    {
      if screen != null {
        screen.Mark(x, y, w, h);
        isDirty := false;
      }
    }

    // One stored pixel: nothing else changes and the change is tracked.
    method Store(x: int, y: int, color: nat)
      requires Valid() && InSurface(x, y)
      modifies pixels, this`isDirty, this`dirtyX0, this`dirtyY0, this`dirtyX1, this`dirtyY1
      ensures Valid() && pixels[y, x] == color
      ensures forall px, py :: InSurface(px, py) && (px, py) != (x, y) ==> pixels[py, px] == old(pixels[py, px])
      ensures old(pixels[y, x]) != color ==> InDirtyBox(x, y)
      ensures forall px, py :: old(InDirtyBox(px, py)) ==> InDirtyBox(px, py)
    {
      if pixels[y, x] != color {
        pixels[y, x] := color;
        Track(x, y);
      }
    }

    // set_px
    method SetPx(x: int, y: int, color: nat)
      requires Valid()
      modifies pixels, this`isDirty, this`dirtyX0, this`dirtyY0, this`dirtyX1, this`dirtyY1
      ensures Valid()
      ensures forall px, py :: InSurface(px, py) ==>
                pixels[py, px] == if InClip(px, py) && (px, py) == (x, y) then color else old(pixels[py, px])
      ensures forall px, py :: InSurface(px, py) && pixels[py, px] != old(pixels[py, px]) ==> InDirtyBox(px, py)
      ensures forall px, py :: old(InDirtyBox(px, py)) ==> InDirtyBox(px, py)
    {
      if x < clipX || y < clipY { return; }
      if x >= clipX + clipW || y >= clipY + clipH { return; }
      Store(x, y, color);
    }

    // The part of a rectangle inside the clip.
    method ClipRect(x: int, y: int, w: int, h: int) returns (r: Rect)
      requires Valid()
      ensures forall px, py :: Inside(r, px, py) <==> InClip(px, py) && Inside(Rect(x, y, w, h), px, py)
    {
      var x', y', w', h' := x, y, w, h;
      var cx0, cy0, cx1, cy1 := clipX, clipY, clipX + clipW, clipY + clipH;
      if x' < cx0 { w' := w' - (cx0 - x'); x' := cx0; }
      if y' < cy0 { h' := h' - (cy0 - y'); y' := cy0; }
      if x' + w' > cx1 { w' := cx1 - x'; }
      if y' + h' > cy1 { h' := cy1 - y'; }
      return Rect(x', y', w', h');
    }

    // gfx_fill_rect
    method FillRect(x: int, y: int, w: int, h: int, color: nat)
      requires Valid()
      modifies Frame()
      ensures Valid()
      ensures forall px, py :: InClip(px, py) <==> old(InClip(px, py))
      ensures forall px, py :: InSurface(px, py) ==>
                pixels[py, px] ==
                if old(InClip(px, py)) && Inside(Rect(x, y, w, h), px, py) then color else old(pixels[py, px])
      ensures forall px, py :: InSurface(px, py) && pixels[py, px] != old(pixels[py, px]) ==> Reported(px, py)
      ensures forall px, py :: old(Reported(px, py)) ==> Reported(px, py)
    {
      var area := ClipRect(x, y, w, h);
      if area.w <= 0 || area.h <= 0 { return; }
      FillArea(area, color);
      MarkIfScreen(area.x, area.y, area.w, area.h);
    }

    // The loops of gfx_fill_rect, over an area already clipped.
    method FillArea(area: Rect, color: nat)
      requires Valid() && area.w > 0 && area.h > 0
      requires forall px, py :: Inside(area, px, py) ==> InSurface(px, py)
      modifies pixels, this`isDirty, this`dirtyX0, this`dirtyY0, this`dirtyX1, this`dirtyY1
      ensures Valid()
      ensures forall px, py :: InSurface(px, py) ==>
                pixels[py, px] == if Inside(area, px, py) then color else old(pixels[py, px])
      ensures forall px, py :: InSurface(px, py) && pixels[py, px] != old(pixels[py, px]) ==> InDirtyBox(px, py)
      ensures forall px, py :: old(InDirtyBox(px, py)) ==> InDirtyBox(px, py)
    {
      for row := 0 to area.h
        invariant Valid()
        invariant forall px, py :: InSurface(px, py) ==>
                    pixels[py, px] ==
                    if Inside(area, px, py) && py < area.y + row then color else old(pixels[py, px])
        invariant forall px, py :: InSurface(px, py) && pixels[py, px] != old(pixels[py, px]) ==> InDirtyBox(px, py)
        invariant forall px, py :: old(InDirtyBox(px, py)) ==> InDirtyBox(px, py)
      {
        for col := 0 to area.w
          invariant Valid()
          invariant forall px, py :: InSurface(px, py) ==>
                      pixels[py, px] ==
                      if Inside(area, px, py) && (py < area.y + row || (py == area.y + row && px < area.x + col))
                      then color else old(pixels[py, px])
          invariant forall px, py :: InSurface(px, py) && pixels[py, px] != old(pixels[py, px]) ==> InDirtyBox(px, py)
          invariant forall px, py :: old(InDirtyBox(px, py)) ==> InDirtyBox(px, py)
        {
          assert Inside(area, area.x + col, area.y + row);
          Store(area.x + col, area.y + row, color);
        }
      }
    }

    // gfx_draw_line: exactly the clipped points of the rounded line.
    method DrawLine(x0: int, y0: int, x1: int, y1: int, color: nat)
      requires Valid()
      modifies Frame()
      ensures Valid()
      ensures forall px, py :: InClip(px, py) <==> old(InClip(px, py))
      ensures forall px, py :: InSurface(px, py) ==>
                pixels[py, px] ==
                if old(InClip(px, py)) && OnLine(x0, y0, x1, y1, Steps(x0, y0, x1, y1) + 1, px, py) then color
                else old(pixels[py, px])
      ensures forall px, py :: InSurface(px, py) && pixels[py, px] != old(pixels[py, px]) ==> Reported(px, py)
      ensures forall px, py :: old(Reported(px, py)) ==> Reported(px, py)
    {
      hide Point, Steps, OnLine;
      PaintLine(x0, y0, x1, y1, color);
      LineInBox(x0, y0, x1, y1, Steps(x0, y0, x1, y1) + 1);
      var minx := if x0 < x1 then x0 else x1;
      var miny := if y0 < y1 then y0 else y1;
      var maxx := if x0 > x1 then x0 else x1;
      var maxy := if y0 > y1 then y0 else y1;
      MarkIfScreen(minx, miny, maxx - minx + 1, maxy - miny + 1);
    }

    // The loop of gfx_draw_line.
    method PaintLine(x0: int, y0: int, x1: int, y1: int, color: nat)
      requires Valid()
      modifies pixels, this`isDirty, this`dirtyX0, this`dirtyY0, this`dirtyX1, this`dirtyY1
      ensures Valid()
      ensures forall px, py :: InSurface(px, py) ==>
                pixels[py, px] ==
                if InClip(px, py) && OnLine(x0, y0, x1, y1, Steps(x0, y0, x1, y1) + 1, px, py) then color
                else old(pixels[py, px])
      ensures forall px, py :: InSurface(px, py) && pixels[py, px] != old(pixels[py, px]) ==> InDirtyBox(px, py)
      ensures forall px, py :: old(InDirtyBox(px, py)) ==> InDirtyBox(px, py)
    {
      hide Point, Steps, OnLine, LineState;
      var dx: int := if x1 > x0 then x1 - x0 else x0 - x1;
      var dy := -(if y1 > y0 then y1 - y0 else y0 - y1);
      var sx := if x0 < x1 then 1 else -1;
      var sy := if y0 < y1 then 1 else -1;
      var err := dx + dy;
      var cx, cy := x0, y0;
      ghost var k: nat, last := 0, Steps(x0, y0, x1, y1);
      LineStart(x0, y0, x1, y1);
      while true
        invariant Valid()
        invariant LineState(x0, y0, x1, y1, k, cx, cy, err)
        invariant forall px, py :: InSurface(px, py) ==>
                    pixels[py, px] ==
                    if InClip(px, py) && OnLine(x0, y0, x1, y1, k, px, py) then color else old(pixels[py, px])
        invariant forall px, py :: InSurface(px, py) && pixels[py, px] != old(pixels[py, px]) ==> InDirtyBox(px, py)
        invariant forall px, py :: old(InDirtyBox(px, py)) ==> InDirtyBox(px, py)
        decreases last - k
      {
        SetPx(cx, cy, color);
        OneMorePoint(x0, y0, x1, y1, k, k + 1, cx, cy, err);
        if cx == x1 && cy == y1 { break; }
        LineStep(x0, y0, x1, y1, k, cx, cy, err);
        var e2 := 2 * err;
        if e2 >= dy { err := err + dy; cx := cx + sx; }
        if e2 <= dx { err := err + dx; cy := cy + sy; }
        k := k + 1;
      }
    }

    // gfx_fill_circle: exactly the clipped lattice points of the disc.
    method FillCircle(cx: int, cy: int, r: int, color: nat)
      requires Valid()
      modifies Frame()
      ensures Valid()
      ensures forall px, py :: InClip(px, py) <==> old(InClip(px, py))
      ensures forall px, py :: InSurface(px, py) ==>
                pixels[py, px] ==
                if old(InClip(px, py)) && r > 0 && InDisc(px - cx, py - cy, r) then color else old(pixels[py, px])
      ensures forall px, py :: InSurface(px, py) && pixels[py, px] != old(pixels[py, px]) ==> Reported(px, py)
      ensures forall px, py :: old(Reported(px, py)) ==> Reported(px, py)
    {
      hide InDisc;
      if r <= 0 { return; }
      PaintDisc(cx, cy, r, color);
      DiscInBox(r);
      MarkIfScreen(cx - r, cy - r, 2 * r + 1, 2 * r + 1);
    }

    // The loop of gfx_fill_circle.
    method PaintDisc(cx: int, cy: int, r: int, color: nat)
      requires Valid() && r > 0
      modifies pixels, this`isDirty, this`dirtyX0, this`dirtyY0, this`dirtyX1, this`dirtyY1
      ensures Valid()
      ensures forall px, py :: InSurface(px, py) ==>
                pixels[py, px] ==
                if InClip(px, py) && -r <= py - cy <= r && InDisc(px - cx, py - cy, r) then color
                else old(pixels[py, px])
      ensures forall px, py :: InSurface(px, py) && pixels[py, px] != old(pixels[py, px]) ==> InDirtyBox(px, py)
      ensures forall px, py :: old(InDirtyBox(px, py)) ==> InDirtyBox(px, py)
    {
      hide InDisc;
      var x := r;
      DiscTop(r);
      for y := 0 to r + 1
        invariant Valid()
        invariant 0 <= x <= r && (y <= r ==> !InDisc(x + 1, y, r))
        invariant forall px, py :: InSurface(px, py) ==>
                    pixels[py, px] ==
                    if InClip(px, py) && -y < py - cy < y && InDisc(px - cx, py - cy, r) then color
                    else old(pixels[py, px])
        invariant forall px, py :: InSurface(px, py) && pixels[py, px] != old(pixels[py, px]) ==> InDirtyBox(px, py)
        invariant forall px, py :: old(InDirtyBox(px, py)) ==> InDirtyBox(px, py)
      {
        x := ShrinkRow(x, y, r);
        FillDiscRow(cx, cy, x, y, color);
        if y < r { DiscShrinks(x + 1, y, r); }
      }
    }

    // The half-width of row y of a disc, found from that of the row before.
    static method ShrinkRow(from: int, y: int, r: int) returns (x: int)
      requires 0 <= from <= r && 0 <= y <= r && !InDisc(from + 1, y, r)
      ensures 0 <= x <= r && !InDisc(x + 1, y, r)
      ensures forall i, j :: j == y || j == -y ==> (InDisc(i, j, r) <==> -x <= i <= x)
    {
      hide InDisc;
      x := from;
      while x > 0 && x * x + y * y > r * r
        invariant 0 <= x <= r && !InDisc(x + 1, y, r)
      {
        DiscMeans(x, y, r);
        x := x - 1;
      }
      DiscMeans(x, y, r);
      DiscRow(x, y, r);
    }

    // The rows y above and y below the centre of a disc, x to either side.
    method FillDiscRow(cx: int, cy: int, x: int, y: int, color: nat)
      requires Valid() && x >= 0
      modifies pixels, this`isDirty, this`dirtyX0, this`dirtyY0, this`dirtyX1, this`dirtyY1
      ensures Valid()
      ensures forall px, py :: InSurface(px, py) ==>
                pixels[py, px] ==
                if InClip(px, py) && -x <= px - cx <= x && (py - cy == y || cy - py == y) then color
                else old(pixels[py, px])
      ensures forall px, py :: InSurface(px, py) && pixels[py, px] != old(pixels[py, px]) ==> InDirtyBox(px, py)
      ensures forall px, py :: old(InDirtyBox(px, py)) ==> InDirtyBox(px, py)
    {
      for i := -x to x + 1
        invariant Valid()
        invariant forall px, py :: InSurface(px, py) ==>
                    pixels[py, px] ==
                    if InClip(px, py) && -x <= px - cx < i && (py - cy == y || cy - py == y) then color
                    else old(pixels[py, px])
        invariant forall px, py :: InSurface(px, py) && pixels[py, px] != old(pixels[py, px]) ==> InDirtyBox(px, py)
        invariant forall px, py :: old(InDirtyBox(px, py)) ==> InDirtyBox(px, py)
      {
        SetPx(cx + i, cy + y, color);
        SetPx(cx + i, cy - y, color);
      }
    }

    // gfx_blit: the clipped, in-bounds part of the source rectangle, pixel by pixel.
    method Blit(dx: int, dy: int, src: Surface, sx: int, sy: int, w: int, h: int)
      requires Valid() && src.Valid() && src != this && src.pixels != pixels
      modifies Frame()
      ensures Valid()
      ensures forall px, py :: InClip(px, py) <==> old(InClip(px, py))
      ensures forall px, py :: InSurface(px, py) ==>
                pixels[py, px] ==
                if && old(InClip(px, py)) && Inside(Rect(dx, dy, w, h), px, py)
                   && src.InSurface(sx + px - dx, sy + py - dy)
                then src.pixels[sy + py - dy, sx + px - dx] else old(pixels[py, px])
      ensures forall px, py :: InSurface(px, py) && pixels[py, px] != old(pixels[py, px]) ==> Reported(px, py)
      ensures forall px, py :: old(Reported(px, py)) ==> Reported(px, py)
    {
      var area := BlitRect(dx, dy, src.width, src.height, sx, sy, w, h);
      if area.w <= 0 || area.h <= 0 { return; }
      CopyArea(area, src, sx - dx, sy - dy);
      MarkIfScreen(area.x, area.y, area.w, area.h);
    }

    // The part of the target rectangle inside the clip whose source lies in a srcW by srcH surface.
    method BlitRect(dx: int, dy: int, srcW: nat, srcH: nat, sx: int, sy: int, w: int, h: int) returns (area: Rect)
      requires Valid()
      ensures forall px, py ::
                Inside(area, px, py) <==>
                InClip(px, py) && Inside(Rect(dx, dy, w, h), px, py) &&
                0 <= sx + px - dx < srcW && 0 <= sy + py - dy < srcH
    {
      var dx', dy', sx', sy', w', h' := dx, dy, sx, sy, w, h;
      if sx' < 0 { w' := w' + sx'; dx' := dx' - sx'; sx' := 0; }
      if sy' < 0 { h' := h' + sy'; dy' := dy' - sy'; sy' := 0; }
      if sx' + w' > srcW { w' := srcW - sx'; }
      if sy' + h' > srcH { h' := srcH - sy'; }
      var cx0, cy0, cx1, cy1 := clipX, clipY, clipX + clipW, clipY + clipH;
      if dx' < cx0 { w' := w' - (cx0 - dx'); sx' := sx' + (cx0 - dx'); dx' := cx0; }
      if dy' < cy0 { h' := h' - (cy0 - dy'); sy' := sy' + (cy0 - dy'); dy' := cy0; }
      if dx' + w' > cx1 { w' := cx1 - dx'; }
      if dy' + h' > cy1 { h' := cy1 - dy'; }
      assert sx' - dx' == sx - dx && sy' - dy' == sy - dy;
      return Rect(dx', dy', w', h');
    }

    // The two copy loops of gfx_blit, over an area already clipped.
    method CopyArea(area: Rect, src: Surface, ox: int, oy: int)
      requires Valid() && src.Valid() && src != this && src.pixels != pixels && area.w > 0 && area.h > 0
      requires forall px, py :: Inside(area, px, py) ==>
                 0 <= px < pixels.Length1 && 0 <= py < pixels.Length0 &&
                 0 <= ox + px < src.pixels.Length1 && 0 <= oy + py < src.pixels.Length0
      modifies pixels, this`isDirty, this`dirtyX0, this`dirtyY0, this`dirtyX1, this`dirtyY1
      ensures Valid()
      ensures forall px, py :: InSurface(px, py) ==>
                pixels[py, px] ==
                if Inside(area, px, py) then src.pixels[oy + py, ox + px] else old(pixels[py, px])
      ensures forall px, py :: InSurface(px, py) && pixels[py, px] != old(pixels[py, px]) ==> InDirtyBox(px, py)
      ensures forall px, py :: old(InDirtyBox(px, py)) ==> InDirtyBox(px, py)
    {
      for row := 0 to area.h
        invariant Valid()
        invariant forall px, py :: InSurface(px, py) ==>
                    pixels[py, px] ==
                    if Inside(area, px, py) && py < area.y + row then src.pixels[oy + py, ox + px]
                    else old(pixels[py, px])
        invariant forall px, py :: InSurface(px, py) && pixels[py, px] != old(pixels[py, px]) ==> InDirtyBox(px, py)
        invariant forall px, py :: old(InDirtyBox(px, py)) ==> InDirtyBox(px, py)
      {
        for col := 0 to area.w
          invariant Valid()
          invariant forall px, py :: InSurface(px, py) ==>
                      pixels[py, px] ==
                      if Inside(area, px, py) && (py < area.y + row || (py == area.y + row && px < area.x + col))
                      then src.pixels[oy + py, ox + px] else old(pixels[py, px])
          invariant forall px, py :: InSurface(px, py) && pixels[py, px] != old(pixels[py, px]) ==> InDirtyBox(px, py)
          invariant forall px, py :: old(InDirtyBox(px, py)) ==> InDirtyBox(px, py)
        {
          var x, y := area.x + col, area.y + row;
          assert Inside(area, x, y);
          Store(x, y, src.pixels[oy + y, ox + x]);
        }
      }
    }
  }

  // ---------- The line loop ----------

  // (cx, cy) is the k-th point and err the error term the loop keeps for it.
  ghost predicate LineState(x0: int, y0: int, x1: int, y1: int, k: nat, cx: int, cy: int, err: int) {
    && k <= Steps(x0, y0, x1, y1) && (cx, cy) == Point(x0, y0, x1, y1, k)
    && err == ErrAt(Abs(x1 - x0), Abs(y1 - y0), Abs(cx - x0), Abs(cy - y0))
  }

  ghost function ErrAt(a: nat, b: nat, i: nat, j: nat): int { a * (j + 1) - b * (i + 1) }

  lemma LineStart(x0: int, y0: int, x1: int, y1: int)
    ensures LineState(x0, y0, x1, y1, 0, x0, y0, Abs(x1 - x0) - Abs(y1 - y0))
    ensures forall px, py :: !OnLine(x0, y0, x1, y1, 0, px, py)
  {
    hide Point;
    LineEnds(x0, y0, x1, y1);
  }

  lemma OneMorePoint(x0: int, y0: int, x1: int, y1: int, k: nat, n: nat, cx: int, cy: int, err: int)
    requires LineState(x0, y0, x1, y1, k, cx, cy, err) && n == k + 1
    ensures OnLine(x0, y0, x1, y1, n, cx, cy)
    ensures forall px, py :: OnLine(x0, y0, x1, y1, k, px, py) ==> OnLine(x0, y0, x1, y1, n, px, py)
    ensures forall px, py ::
              OnLine(x0, y0, x1, y1, n, px, py) ==> OnLine(x0, y0, x1, y1, k, px, py) || (px == cx && py == cy)
    ensures k <= Steps(x0, y0, x1, y1) && ((cx, cy) == (x1, y1) <==> k == Steps(x0, y0, x1, y1))
  {
    hide Point, Steps;
    LineEnds(x0, y0, x1, y1);
    if k < Steps(x0, y0, x1, y1) { PointsDiffer(x0, y0, x1, y1, k, Steps(x0, y0, x1, y1)); }
  }

  // The two tests of the loop move exactly to the next point.
  lemma LineStep(x0: int, y0: int, x1: int, y1: int, k: nat, cx: int, cy: int, err: int)
    requires LineState(x0, y0, x1, y1, k, cx, cy, err) && k < Steps(x0, y0, x1, y1)
    ensures var a, b := Abs(x1 - x0), Abs(y1 - y0);
            var moveX, moveY := 2 * err + b >= 0, 2 * err <= a;
            LineState(x0, y0, x1, y1, k + 1,
              if moveX then cx + Sign(x0, x1) else cx, if moveY then cy + Sign(y0, y1) else cy,
              err - (if moveX then b else 0) + (if moveY then a else 0))
  {
    hide Offset, ErrAt;
    var a, b := Abs(x1 - x0), Abs(y1 - y0);
    if a >= b {
      MajorStep(b, k, a);
    } else {
      MajorStep(a, k, b);
    }
    var j := Offset(if a >= b then b else a, k, if a >= b then a else b);
    if a >= b {
      ErrMoves(a, b, k, j);
    } else {
      ErrMoves(a, b, j, k);
    }
  }

  lemma ErrMoves(a: nat, b: nat, i: nat, j: nat)
    ensures ErrAt(a, b, i + 1, j) == ErrAt(a, b, i, j) - b
    ensures ErrAt(a, b, i, j + 1) == ErrAt(a, b, i, j) + a
    ensures ErrAt(a, b, i + 1, j + 1) == ErrAt(a, b, i, j) - b + a
  {
    MulNext(b, i + 1);
    MulNext(a, j + 1);
  }

  // Both tests in terms of the major axis: it always moves, the minor one when the rounded
  // offset grows.
  lemma MajorStep(minor: nat, k: nat, major: nat)
    requires minor <= major && k < major
    ensures var j := Offset(minor, k, major);
            var j' := Offset(minor, k + 1, major);
            && (j' == j || j' == j + 1)
            && 2 * ErrAt(major, minor, k, j) >= -(minor as int)
            && (2 * ErrAt(major, minor, k, j) <= major <==> j' == j + 1)
            && 2 * ErrAt(minor, major, j, k) <= minor
            && (2 * ErrAt(minor, major, j, k) >= -(major as int) <==> j' == j + 1)
  {
    hide Offset;
    var j := Offset(minor, k, major);
    NextOffset(minor, k, major, j);
    HalfPixelStrict(minor, k, major);
    MulNext(minor, k);
    MulNext(major, j);
    MulSwap(minor, k);
  }

  lemma LineInBox(x0: int, y0: int, x1: int, y1: int, n: nat)
    ensures forall px, py :: OnLine(x0, y0, x1, y1, n, px, py) ==>
              (x0 <= px <= x1 || x1 <= px <= x0) && (y0 <= py <= y1 || y1 <= py <= y0)
  {
    hide Point, Steps;
    forall px, py | OnLine(x0, y0, x1, y1, n, px, py)
      ensures (x0 <= px <= x1 || x1 <= px <= x0) && (y0 <= py <= y1 || y1 <= py <= y0)
    {
      var k: nat :| k < n && k <= Steps(x0, y0, x1, y1) && (px, py) == Point(x0, y0, x1, y1, k);
      WithinHalfPixel(x0, y0, x1, y1, k);
    }
  }

  // ---------- The disc ----------

  ghost predicate InDisc(i: int, j: int, r: int) { i * i + j * j <= r * r }

  lemma DiscMeans(i: int, j: int, r: int)
    ensures InDisc(i, j, r) <==> i * i + j * j <= r * r
  {
  }

  lemma SquareMono(a: int, b: int)
    requires 0 <= a <= b
    ensures a * a <= b * b
  {
    assert a * a <= a * b;
    assert a * b <= b * b;
  }

  lemma SquareNext(a: int)
    ensures (a + 1) * (a + 1) == a * a + 2 * a + 1
  {
  }

  lemma DiscTop(r: int)
    requires r > 0
    ensures !InDisc(r + 1, 0, r)
  {
    SquareNext(r);
  }

  // A row of the disc is the interval between -x and x.
  lemma DiscRow(x: int, y: int, r: int)
    requires 0 <= x && 0 <= y <= r && !InDisc(x + 1, y, r)
    requires x == 0 || InDisc(x, y, r)
    ensures forall i, j :: j == y || j == -y ==> (InDisc(i, j, r) <==> -x <= i <= x)
  {
    SquareMono(y, r);
    assert InDisc(x, y, r);
    forall i, j | j == y || j == -y
      ensures InDisc(i, j, r) <==> -x <= i <= x
    {
      var m := if i < 0 then -i else i;
      assert m * m == i * i && j * j == y * y;
      if m <= x { SquareMono(m, x); } else { SquareMono(x + 1, m); }
    }
  }

  lemma DiscShrinks(i: int, y: int, r: int)
    requires 0 <= y && !InDisc(i, y, r)
    ensures !InDisc(i, y + 1, r)
  {
    SquareNext(y);
  }

  lemma DiscInBox(r: int)
    requires r > 0
    ensures forall i, j :: InDisc(i, j, r) ==> -r <= i <= r && -r <= j <= r
  {
    forall i, j | InDisc(i, j, r) ensures -r <= i <= r && -r <= j <= r {
      InDiscBounded(i, j, r);
      InDiscBounded(j, i, r);
    }
  }

  lemma InDiscBounded(i: int, j: int, r: int)
    requires r > 0 && i * i + j * j <= r * r
    ensures -r <= i <= r
  {
    var m := if i < 0 then -i else i;
    assert m * m == i * i && j * j >= 0;
    if m > r {
      SquareNext(r);
      SquareMono(r + 1, m);
    }
  }
}
