// The dirty rectangle list: which parts of the screen still have to reach VRAM.
module Dirty {

  const MAX_RECTS: nat := 64

  datatype Rect = Rect(x: int, y: int, w: int, h: int)

  // A point of the rectangle [x, x + w) by [y, y + h).
  predicate Inside(r: Rect, px: int, py: int) {
    r.x <= px < r.x + r.w && r.y <= py < r.y + r.h
  }

  // rects_touch: the rectangles overlap or share an edge.
  predicate Touch(a: Rect, b: Rect) {
    !(a.x > b.x + b.w || b.x > a.x + a.w || a.y > b.y + b.h || b.y > a.y + a.h)
  }

  function Min(a: int, b: int): int { if a < b then a else b }

  function Max(a: int, b: int): int { if a > b then a else b }

  // rects_union: the bounding box.
  function Union(a: Rect, b: Rect): Rect {
    var x0, y0 := Min(a.x, b.x), Min(a.y, b.y);
    Rect(x0, y0, Max(a.x + a.w, b.x + b.w) - x0, Max(a.y + a.h, b.y + b.h) - y0)
  }

  // Two rectangles touch exactly if they share a point, their right and lower edges included.
  lemma TouchMeans(a: Rect, b: Rect)
    requires a.w >= 0 && a.h >= 0 && b.w >= 0 && b.h >= 0
    ensures Touch(a, b) <==> exists x, y :: OnOrIn(a, x, y) && OnOrIn(b, x, y)
  {
    if Touch(a, b) { assert OnOrIn(a, Max(a.x, b.x), Max(a.y, b.y)) && OnOrIn(b, Max(a.x, b.x), Max(a.y, b.y)); }
  }

  ghost predicate OnOrIn(r: Rect, x: int, y: int) { r.x <= x <= r.x + r.w && r.y <= y <= r.y + r.h }

  // The union covers both rectangles, and any rectangle that does covers it.
  lemma UnionLeast(a: Rect, b: Rect, c: Rect)
    requires a.w > 0 && a.h > 0 && b.w > 0 && b.h > 0
    ensures (forall x, y :: Inside(a, x, y) || Inside(b, x, y) ==> Inside(c, x, y)) <==>
            (forall x, y :: Inside(Union(a, b), x, y) ==> Inside(c, x, y))
  {
    var u := Union(a, b);
    if forall x, y :: Inside(a, x, y) || Inside(b, x, y) ==> Inside(c, x, y) {
      assert Inside(a, a.x, a.y) && Inside(a, a.x + a.w - 1, a.y + a.h - 1);
      assert Inside(b, b.x, b.y) && Inside(b, b.x + b.w - 1, b.y + b.h - 1);
    }
  }

  class DirtyList {
    const rects: array<Rect>
    var count: nat
    var full: bool
    var screenW: nat
    var screenH: nat

    // dirty_init: the first frame is presented in full.
    constructor (w: nat, h: nat)
      ensures Valid() && screenW == w && screenH == h && full && fresh(rects)
    {
      rects := new Rect[MAX_RECTS](_ => Rect(0, 0, 0, 0));
      screenW, screenH := w, h;
      count := 0;
      full := true;
    }

    // Every rectangle in the list is a non-empty part of the screen.
    ghost predicate Valid()
      reads this, rects
    {
      && rects.Length == MAX_RECTS && count <= MAX_RECTS
      && (full ==> count == 0)
      && forall i :: 0 <= i < count ==> OnScreen(rects[i])
    }

    ghost predicate OnScreen(r: Rect)
      reads this
    {
      && r.x >= 0 && r.y >= 0 && r.w > 0 && r.h > 0
      && (screenW > 0 ==> r.x + r.w <= screenW) && (screenH > 0 ==> r.y + r.h <= screenH)
    }

    // The point is due to be copied to VRAM.
    ghost predicate Covers(px: int, py: int)
      requires count <= rects.Length
      reads this, rects
    {
      full || exists i :: 0 <= i < count && Inside(rects[i], px, py)
    }

    ghost predicate SameScreen(w: nat, h: nat)
      reads this
    {
      screenW == w && screenH == h
    }

    // dirty_mark_all
    method MarkAll()
      requires Valid()
      modifies this`full, this`count
      ensures Valid() && full
    {
      full := true;
      count := 0;
    }

    // The on-screen part of a rectangle.
    method Clip(x: int, y: int, w: int, h: int) returns (r: Rect)
      requires screenW > 0 && screenH > 0 && w > 0 && h > 0
      ensures r.w > 0 && r.h > 0 ==> OnScreen(r)
      ensures forall px, py ::
                Inside(Rect(x, y, w, h), px, py) && 0 <= px < screenW && 0 <= py < screenH <==> Inside(r, px, py)
    {
      var x', y', w', h' := x, y, w, h;
      if x' < 0 { w' := w' + x'; x' := 0; }
      if y' < 0 { h' := h' + y'; y' := 0; }
      if screenW > 0 && x' + w' > screenW { w' := screenW - x'; }
      if screenH > 0 && y' + h' > screenH { h' := screenH - y'; }
      return Rect(x', y', w', h');
    }

    // dirty_mark: the on-screen part of the rectangle becomes covered, and what was covered
    // stays covered.
    method Mark(x: int, y: int, w: int, h: int)
      requires Valid() && screenW > 0 && screenH > 0
      modifies this`full, this`count, rects
      ensures Valid()
      ensures forall px, py ::
                old(Covers(px, py)) || (Inside(Rect(x, y, w, h), px, py) && 0 <= px < screenW && 0 <= py < screenH)
                ==> Covers(px, py)
      ensures old(full) ==> full
      ensures full && !old(full) ==> old(count) == 64
      ensures !full && old(count) == 0 ==> forall px, py :: Covers(px, py) ==> Inside(Rect(x, y, w, h), px, py)
    {
      if full { return; }
      if w <= 0 || h <= 0 { return; }
      var nr := Clip(x, y, w, h);
      if nr.w <= 0 || nr.h <= 0 { return; }
      var i := 0;
      while i < count
        invariant i <= count
        invariant forall k :: 0 <= k < i ==> !Touch(rects[k], nr)
      {
        if Touch(rects[i], nr) {
          ghost var was := rects[i];
          rects[i] := Union(rects[i], nr);
          MergeCovers(was, nr);
          CoverKept(old(rects[..]), rects[..], count, i, nr);
          return;
        }
        i := i + 1;
      }
      if count >= MAX_RECTS {
        MarkAll();
        return;
      }
      rects[count] := nr;
      count := count + 1;
      assert forall k :: 0 <= k < count - 1 ==> rects[k] == old(rects[k]);
      assert Inside(rects[count - 1], nr.x, nr.y);
    }

    // dirty_count: how many rectangles there are to copy one by one.  They are all there is,
    // unless the whole screen is due; and a count of zero then means that nothing is.
    method Count() returns (n: nat)
      requires Valid()
      ensures full ==> n == 0
      ensures !full ==>
                n == count && forall px, py :: Covers(px, py) <==> exists i :: 0 <= i < n && Inside(rects[i], px, py)
      ensures n == 0 <==> full || forall px, py :: !Covers(px, py)
    {
      n := if full then 0 else count;
      if n > 0 {
        assert OnScreen(rects[0]) && Inside(rects[0], rects[0].x, rects[0].y);
        assert Covers(rects[0].x, rects[0].y);
      }
    }

    // dirty_get: one of those rectangles, a non-empty part of the screen.
    method Get(index: nat) returns (ok: bool, r: Rect)
      requires Valid()
      ensures ok <==> !full && index < count
      ensures ok ==> r == rects[index] && OnScreen(r)
    {
      if full || index >= count { return false, Rect(0, 0, 0, 0); }
      return true, rects[index];
    }

    // dirty_reset
    method Reset()
      requires Valid()
      modifies this`full, this`count
      ensures Valid() && forall px, py :: !Covers(px, py)
    {
      count := 0;
      full := false;
    }
  }

  lemma MergeCovers(a: Rect, b: Rect)
    ensures forall px, py :: Inside(a, px, py) || Inside(b, px, py) ==> Inside(Union(a, b), px, py)
  {
  }

  // Growing one rectangle of a list loses no point.
  lemma CoverKept(was: seq<Rect>, now: seq<Rect>, n: nat, i: nat, nr: Rect)
    requires i < n <= |was| == |now| && now == was[i := Union(was[i], nr)]
    ensures forall px, py, k :: 0 <= k < n && Inside(was[k], px, py) ==> Inside(now[k], px, py)
    ensures forall px, py :: Inside(nr, px, py) ==> Inside(now[i], px, py)
  {
    MergeCovers(was[i], nr);
  }
}
