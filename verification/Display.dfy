// From the shadow buffer to VRAM: presenting only what is dirty, with the mouse cursor laid
// over the picture by vbe_refresh_screen.
module Display {
  import opened Bits
  import opened Dirty

  const CURSOR_W: nat := 12
  const CURSOR_H: nat := 18
  const BLACK: nat := 0x000000
  const WHITE: nat := 0xFFFFFF

  const MOUSE_SHAPE: seq<string> := [
    "100000000000",
    "121000000000",
    "122100000000",
    "122210000000",
    "122221000000",
    "122222100000",
    "122222210000",
    "122222221000",
    "122222222100",
    "122222222210",
    "122222111111",
    "122122100000",
    "121012210000",
    "110012210000",
    "100001221000",
    "000001221000",
    "000000110000",
    "000000000000"]

  // The shape at column i, row j.
  function Shape(i: int, j: int): char
    requires 0 <= i < CURSOR_W && 0 <= j < CURSOR_H
  {
    ShapeRows();
    MOUSE_SHAPE[j][i]
  }

  lemma ShapeRows()
    ensures |MOUSE_SHAPE| == CURSOR_H && forall j :: 0 <= j < CURSOR_H ==> |MOUSE_SHAPE[j]| == CURSOR_W
  {
  }

  // The footprint of a cursor at (mx, my).
  predicate InCursor(mx: int, my: int, px: int, py: int) {
    Inside(Rect(mx, my, CURSOR_W, CURSOR_H), px, py)
  }

  // What the cursor at (mx, my) makes of a pixel of colour c.
  function Overlay(mx: int, my: int, px: int, py: int, c: nat): nat {
    if !InCursor(mx, my, px, py) then c
    else if Shape(px - mx, py - my) == '1' then BLACK
    else if Shape(px - mx, py - my) == '2' then WHITE
    else c
  }

  // The outline of the arrow: the left edge, the diagonal, the underside, and both sides and the
  // end of the tail.
  ghost predicate Outline(i: int, j: int) {
    || (i == 0 && 0 <= j <= 14)
    || (i == j + 1 && 1 <= j <= 9)
    || (6 <= i <= 11 && j == 10)
    || (i == 14 - j && 11 <= j <= 13)
    || (i == j / 2 - 2 && 12 <= j <= 15)
    || (i == j / 2 + 1 && 11 <= j <= 15)
    || (6 <= i <= 7 && j == 16)
  }

  // What the outline encloses: the head, the notch under it, and the tail.
  ghost predicate Interior(i: int, j: int) {
    || (1 <= i <= j && j <= 9)
    || (1 <= i <= 5 && j == 10)
    || (1 <= i <= 13 - j && 11 <= j <= 12)
    || (j / 2 - 1 <= i <= j / 2 && 11 <= j <= 15)
  }

  // The cursor is a white arrow with a black outline; every other pixel keeps its colour.
  lemma ArrowDrawn(mx: int, my: int, px: int, py: int, c: nat)
    ensures Overlay(mx, my, px, py, c) ==
            if Outline(px - mx, py - my) then 0x000000
            else if Interior(px - mx, py - my) then 0xFFFFFF
            else c
  {
    if InCursor(mx, my, px, py) {
      ArrowRow(px - mx, py - my);
    }
  }

  lemma ArrowRow(i: int, j: int)
    requires 0 <= i < 12 && 0 <= j < 18
    ensures Shape(i, j) == if Outline(i, j) then '1' else if Interior(i, j) then '2' else '0'
  {
    if j < 6 {
      assert j in {0, 1, 2, 3, 4, 5};
    } else if j < 12 {
      assert j in {6, 7, 8, 9, 10, 11};
    } else {
      assert j in {12, 13, 14, 15, 16, 17};
    }
  }

  // What a pixel of colour c reads back as from VRAM: 24-bit modes keep the low three bytes.
  ghost function Shown(bpp: nat, c: nat): nat { if bpp == 24 then c % 0x100_0000 else c % 0x1_0000_0000 }

  lemma LittleEndian(c: nat)
    ensures c % 0x100 + 0x100 * (c / 0x100 % 0x100) + 0x1_0000 * (c / 0x1_0000 % 0x100) == c % 0x100_0000
    ensures c % 0x100_0000 + 0x100_0000 * (c / 0x100_0000 % 0x100) == c % 0x1_0000_0000
  {
    TwoBytes(c);
    ThreeBytes(c);
    FourBytes(c);
  }

  lemma TwoBytes(c: nat)
    ensures c % 0x100 + 0x100 * (c / 0x100 % 0x100) == c % 0x1_0000
  {
    assert c / 0x100 / 0x100 == c / 0x1_0000;
  }

  lemma ThreeBytes(c: nat)
    ensures c % 0x1_0000 + 0x1_0000 * (c / 0x1_0000 % 0x100) == c % 0x100_0000
  {
    assert c / 0x1_0000 / 0x100 == c / 0x100_0000;
  }

  lemma FourBytes(c: nat)
    ensures c % 0x100_0000 + 0x100_0000 * (c / 0x100_0000 % 0x100) == c % 0x1_0000_0000
  {
    assert c / 0x100_0000 / 0x100 == c / 0x1_0000_0000;
  }

  class Screen {
    const width: nat
    const height: nat
    const bpp: nat
    const shadow: array2<nat>  // shadow[y, x]
    const vram: array2<byte>   // vram[y, i]: byte i of row y, pitch bytes a row
    const pitch: nat
    const dirty: DirtyList
    var prevMx: int
    var prevMy: int

    constructor (w: nat, h: nat, bits: nat, bytesPerRow: nat)
      requires w > 0 && h > 0 && bits in {24, 32} && bytesPerRow >= w * (bits / 8)
      ensures Valid() && InSync() && width == w && height == h && bpp == bits && pitch == bytesPerRow
      ensures fresh(shadow) && fresh(vram) && fresh(dirty) && fresh(dirty.rects)
    {
      width, height, bpp, pitch := w, h, bits, bytesPerRow;
      shadow := new nat[h, w]((_, _) => 0);
      vram := new byte[h, bytesPerRow]((_, _) => 0);
      dirty := new DirtyList(w, h);
      prevMx, prevMy := -10000, -10000;
    }

    // The buffers have the sizes of the mode; a row of VRAM may be longer than its pixels.
    ghost predicate Sized() {
      && bpp in {24, 32} && pitch >= width * (bpp / 8)
      && shadow.Length0 == vram.Length0 == height && shadow.Length1 == width && vram.Length1 == pitch
    }

    ghost predicate Valid()
      reads this, dirty, dirty.rects
    {
      && width > 0 && height > 0 && Sized()
      && dirty.Valid() && dirty.SameScreen(width, height)
    }

    predicate OnScreen(px: int, py: int) { 0 <= px < width && 0 <= py < height }

    // The colour at a pixel of VRAM: its three or four bytes, the lowest first.
    ghost function Seen(px: int, py: int): nat
      requires Sized() && OnScreen(px, py)
      reads vram
    {
      if bpp == 24
      then vram[py, px * 3] + 0x100 * vram[py, px * 3 + 1] + 0x1_0000 * vram[py, px * 3 + 2]
      else vram[py, px * 4] + 0x100 * vram[py, px * 4 + 1] + 0x1_0000 * vram[py, px * 4 + 2]
           + 0x100_0000 * vram[py, px * 4 + 3]
    }

    // Outside the dirty cover and the last cursor footprint, VRAM shows the shadow buffer.
    ghost predicate InSync()
      requires Valid()
      reads this, shadow, vram, dirty, dirty.rects
    {
      forall px, py :: OnScreen(px, py) && !dirty.Covers(px, py) && !InCursor(prevMx, prevMy, px, py) ==>
        Seen(px, py) == Shown(bpp, shadow[py, px])
    }

    // All of VRAM shows the shadow buffer with the cursor on top, and nothing is left to do.
    ghost predicate Shows(mx: int, my: int)
      requires Valid()
      reads this, shadow, vram, dirty, dirty.rects
    {
      && (forall px, py :: OnScreen(px, py) ==>
            Seen(px, py) == Shown(bpp, Overlay(mx, my, px, py, shadow[py, px])))
      && (forall px, py :: OnScreen(px, py) ==> !dirty.Covers(px, py))
    }

    // One pixel copied by flush_rect: the bytes of its colour go to their place in the row of VRAM.
    method CopyPixel(x: int, y: int)
      requires Sized() && OnScreen(x, y)
      modifies vram
      ensures Seen(x, y) == Shown(bpp, shadow[y, x])
      ensures forall px, py :: OnScreen(px, py) && (px != x || py != y) ==> Seen(px, py) == old(Seen(px, py))
      ensures PaddingKept()
    {
      var color := shadow[y, x];
      LittleEndian(color);
      if bpp == 32 {
        vram[y, x * 4] := color % 0x100;
        vram[y, x * 4 + 1] := color / 0x100 % 0x100;
        vram[y, x * 4 + 2] := color / 0x1_0000 % 0x100;
        vram[y, x * 4 + 3] := color / 0x100_0000 % 0x100;
      } else {
        vram[y, x * 3] := color % 0x100;
        vram[y, x * 3 + 1] := color / 0x100 % 0x100;
        vram[y, x * 3 + 2] := color / 0x1_0000 % 0x100;
      }
    }

    // The bytes behind the pixels of each row are what they were.
    twostate predicate PaddingKept()
      requires Sized()
      reads vram
    {
      forall i, py :: 0 <= py < height && width * (bpp / 8) <= i < pitch ==> vram[py, i] == old(vram[py, i])
    }

    // flush_rect, and present_rect in 32-bit modes: copies the on-screen part of a rectangle.
    method Flush(x: int, y: int, w: int, h: int)
      requires Valid()
      modifies vram
      ensures forall px, py :: OnScreen(px, py) ==>
                Seen(px, py) ==
                if Inside(Rect(x, y, w, h), px, py) then Shown(bpp, shadow[py, px]) else old(Seen(px, py))
      ensures PaddingKept()
    {
      hide Seen, Shown;
      var x', y', w', h' := x, y, w, h;
      if x' < 0 { w' := w' + x'; x' := 0; }
      if y' < 0 { h' := h' + y'; y' := 0; }
      if x' + w' > width { w' := width - x'; }
      if y' + h' > height { h' := height - y'; }
      if w' <= 0 || h' <= 0 { return; }
      ghost var area := Rect(x', y', w', h');
      assert forall px, py :: Inside(area, px, py) <==> OnScreen(px, py) && Inside(Rect(x, y, w, h), px, py);
      for row := 0 to h'
        invariant forall px, py :: OnScreen(px, py) ==>
                    Seen(px, py) ==
                    if Inside(area, px, py) && py < y' + row then Shown(bpp, shadow[py, px]) else old(Seen(px, py))
        invariant PaddingKept()
      {
        for col := 0 to w'
          invariant forall px, py :: OnScreen(px, py) ==>
                      Seen(px, py) ==
                      if Inside(area, px, py) && (py < y' + row || (py == y' + row && px < x' + col))
                      then Shown(bpp, shadow[py, px]) else old(Seen(px, py))
          invariant PaddingKept()
        {
          assert Inside(area, x' + col, y' + row);
          CopyPixel(x' + col, y' + row);
        }
      }
    }

    // Copies every dirty rectangle.
    method FlushDirty()
      requires Valid()
      modifies vram
      ensures forall px, py :: OnScreen(px, py) ==>
                Seen(px, py) ==
                if dirty.Covers(px, py) then Shown(bpp, shadow[py, px]) else old(Seen(px, py))
      ensures PaddingKept()
    {
      hide Seen, Shown;
      if dirty.full {
        Flush(0, 0, width, height);
        return;
      }
      var n := dirty.Count();
      for i := 0 to n
        invariant forall px, py :: OnScreen(px, py) ==>
                    Seen(px, py) ==
                    if exists k :: 0 <= k < i && Inside(dirty.rects[k], px, py) then Shown(bpp, shadow[py, px])
                    else old(Seen(px, py))
        invariant PaddingKept()
      {
        var ok, r := dirty.Get(i);
        if ok { Flush(r.x, r.y, r.w, r.h); }
      }
    }

    // fb_present
    method Present()
      requires Valid() && InSync() && bpp == 32
      modifies vram, dirty`full, dirty`count
      ensures Valid() && InSync() && forall px, py :: !dirty.Covers(px, py)
    {
      FlushDirty();
      dirty.Reset();
    }

    // cursor_paint: saves what is under the cursor, then draws it.
    method CursorPaint(mx: int, my: int, bg: array<nat>)
      requires Valid() && bg.Length == CURSOR_W * CURSOR_H
      modifies shadow, bg
      ensures forall px, py :: OnScreen(px, py) ==>
                shadow[py, px] == Overlay(mx, my, px, py, old(shadow[py, px]))
      ensures forall px, py :: OnScreen(px, py) && InCursor(mx, my, px, py) ==>
                Saved(bg, mx, my, px, py) == old(shadow[py, px])
    {
      hide Shape;
      for j := 0 to CURSOR_H
        invariant forall px, py :: OnScreen(px, py) ==>
                    shadow[py, px] ==
                    if py < my + j then Overlay(mx, my, px, py, old(shadow[py, px])) else old(shadow[py, px])
        invariant forall px, py :: OnScreen(px, py) && InCursor(mx, my, px, py) && py < my + j ==>
                    Saved(bg, mx, my, px, py) == old(shadow[py, px])
      {
        for i := 0 to CURSOR_W
          invariant forall px, py :: OnScreen(px, py) ==>
                      shadow[py, px] ==
                      if py < my + j || (py == my + j && px < mx + i)
                      then Overlay(mx, my, px, py, old(shadow[py, px])) else old(shadow[py, px])
          invariant forall px, py ::
                      OnScreen(px, py) && InCursor(mx, my, px, py) &&
                      (py < my + j || (py == my + j && px < mx + i)) ==>
                      Saved(bg, mx, my, px, py) == old(shadow[py, px])
        {
          var px, py := mx + i, my + j;
          if px >= 0 && px < width && py >= 0 && py < height {
            bg[j * CURSOR_W + i] := shadow[py, px];
            var c := Shape(i, j);
            if c == '1' {
              shadow[py, px] := BLACK;
            } else if c == '2' {
              shadow[py, px] := WHITE;
            }
          }
        }
      }
    }

    // The colour saved for a pixel under the cursor.
    ghost function Saved(bg: array<nat>, mx: int, my: int, px: int, py: int): nat
      requires bg.Length == CURSOR_W * CURSOR_H && InCursor(mx, my, px, py)
      reads bg
    {
      bg[(py - my) * CURSOR_W + (px - mx)]
    }

    // cursor_restore
    method CursorRestore(mx: int, my: int, bg: array<nat>)
      requires Valid() && bg.Length == CURSOR_W * CURSOR_H
      modifies shadow
      ensures forall px, py :: OnScreen(px, py) ==>
                shadow[py, px] ==
                if InCursor(mx, my, px, py) then Saved(bg, mx, my, px, py) else old(shadow[py, px])
    {
      for j := 0 to CURSOR_H
        invariant forall px, py :: OnScreen(px, py) ==>
                    shadow[py, px] ==
                    if InCursor(mx, my, px, py) && py < my + j then Saved(bg, mx, my, px, py) else old(shadow[py, px])
      {
        for i := 0 to CURSOR_W
          invariant forall px, py :: OnScreen(px, py) ==>
                      shadow[py, px] ==
                      if InCursor(mx, my, px, py) && (py < my + j || (py == my + j && px < mx + i))
                      then Saved(bg, mx, my, px, py) else old(shadow[py, px])
        {
          var px, py := mx + i, my + j;
          if px >= 0 && px < width && py >= 0 && py < height {
            shadow[py, px] := bg[j * CURSOR_W + i];
          }
        }
      }
    }

    // Copies every dirty rectangle with the cursor painted over the picture meanwhile.
    method FlushUnder(mx: int, my: int)
      requires Valid()
      modifies shadow, vram
      ensures forall px, py :: OnScreen(px, py) ==>
                Seen(px, py) ==
                if dirty.Covers(px, py) then Shown(bpp, Overlay(mx, my, px, py, shadow[py, px]))
                else old(Seen(px, py))
      ensures PaddingKept()
      ensures forall px, py :: OnScreen(px, py) ==> shadow[py, px] == old(shadow[py, px])
    {
      hide Shape, Overlay, Seen, Shown;
      OutsideCursor(mx, my);
      var bg := new nat[CURSOR_W * CURSOR_H];
      CursorPaint(mx, my, bg);
      FlushDirty();
      CursorRestore(mx, my, bg);
    }

    // vbe_refresh_screen: afterwards all of VRAM is the shadow buffer under the cursor, and the
    // shadow buffer is what it was.
    method Refresh(mx: int, my: int)
      requires Valid() && InSync()
      modifies this`prevMx, this`prevMy, shadow, vram, dirty`full, dirty`count, dirty.rects
      ensures Valid() && InSync() && Shows(mx, my) && prevMx == mx && prevMy == my && PaddingKept()
      ensures var limit := if bpp == 24 then 0x100_0000 else 0x1_0000_0000;
              forall px, py :: OnScreen(px, py) && shadow[py, px] < limit ==>
                Seen(px, py) == Overlay(mx, my, px, py, shadow[py, px])
      ensures forall px, py :: OnScreen(px, py) ==> shadow[py, px] == old(shadow[py, px])
    {
      hide Shape, Overlay, Seen, Shown;
      OverlayShown(bpp, mx, my);
      dirty.Mark(prevMx, prevMy, CURSOR_W, CURSOR_H);
      dirty.Mark(mx, my, CURSOR_W, CURSOR_H);
      prevMx, prevMy := mx, my;
      OutsideCursor(mx, my);
      if !dirty.full {
        var n := dirty.Count();
        if n == 0 {
          return;
        }
      }
      FlushUnder(mx, my);
      dirty.Reset();
    }
  }

  lemma OutsideCursor(mx: int, my: int)
    ensures forall px, py, c :: !InCursor(mx, my, px, py) ==> Overlay(mx, my, px, py, c) == c
  {
  }

  // A colour no wider than the mode is shown as it is, whatever the cursor makes of it.
  lemma OverlayShown(bpp: nat, mx: int, my: int)
    ensures forall px, py, c :: c < (if bpp == 24 then 0x100_0000 else 0x1_0000_0000) ==>
              Shown(bpp, Overlay(mx, my, px, py, c)) == Overlay(mx, my, px, py, c)
  {
    hide Shape;
  }
}
