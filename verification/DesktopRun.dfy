// The desktop loop: compose a frame, then refresh the screen.
module DesktopRun {
  import opened Dirty
  import opened Display
  import opened Gfx
  import opened Scene
  import opened Compositor

  datatype Frame = Frame(scene: Scene, mx: int, my: int)

  // A compositor painting into the shadow buffer of a screen.
  ghost predicate Wired(screen: Screen, comp: Compositor)
    reads screen, screen.dirty, screen.dirty.rects, comp, comp.prev, comp.havePrev, comp.screen, comp.screen.Frame()
  {
    && screen.Valid() && comp.Valid() && comp.FullClip()
    && comp.screen.pixels == screen.shadow && comp.screen.screen == screen.dirty
    && comp.screen.width == screen.width && comp.screen.height == screen.height
    && (comp.firstFrame || comp.ShowsScene(comp.shown))
  }

  // VRAM shows the scene, repainted from scratch, under the cursor.
  ghost predicate ShowsFrame(screen: Screen, decor: Decor, f: Frame)
    requires screen.Sized()
    reads screen.vram
  {
    forall px, py :: screen.OnScreen(px, py) ==>
      var c := Picture(decor, f.scene, px, py);
      && screen.Seen(px, py) == Shown(screen.bpp, Overlay(f.mx, f.my, px, py, c))
      && (c < (if screen.bpp == 24 then 0x100_0000 else 0x1_0000_0000) ==>
            screen.Seen(px, py) == Overlay(f.mx, f.my, px, py, c))
  }

  method OneFrame(screen: Screen, comp: Compositor, f: Frame)
    requires Wired(screen, comp) && screen.InSync() && Distinct(f.scene.wins)
    requires comp.firstFrame || Flagged(comp.shown.wins, f.scene.wins)
    modifies screen`prevMx, screen`prevMy, screen.shadow, screen.vram, screen.dirty, screen.dirty.rects,
      comp`firstFrame, comp`lastClock, comp`shown, comp.prev, comp.havePrev, comp.screen
    ensures Wired(screen, comp) && screen.InSync() && !comp.firstFrame && comp.shown == f.scene
    ensures ShowsFrame(screen, comp.decor, f)
  {
    hide Overlay, Picture, Snapshots, Flagged, Shown;
    var wins := comp.Compose(f.scene);
    forall px, py |
      screen.OnScreen(px, py) && !screen.dirty.Covers(px, py) && !InCursor(screen.prevMx, screen.prevMy, px, py)
      ensures screen.Seen(px, py) == Shown(screen.bpp, screen.shadow[py, px])
    {
      assert comp.screen.InSurface(px, py) && !old(screen.dirty.Covers(px, py));
    }
    screen.Refresh(f.mx, f.my);
  }

  // The frames' window changes are all flagged.
  ghost predicate FlaggedRun(frames: seq<Frame>) {
    && (forall i :: 0 <= i < |frames| ==> Distinct(frames[i].scene.wins))
    && (forall i :: 0 < i < |frames| ==> Flagged(frames[i - 1].scene.wins, frames[i].scene.wins))
  }

  // Over any run, from the first frame on, what is on the screen after a frame is its scene
  // repainted from scratch, with the cursor on top.
  method Run(screen: Screen, comp: Compositor, frames: seq<Frame>)
    requires Wired(screen, comp) && screen.InSync() && comp.firstFrame && FlaggedRun(frames)
    modifies screen`prevMx, screen`prevMy, screen.shadow, screen.vram, screen.dirty, screen.dirty.rects,
      comp`firstFrame, comp`lastClock, comp`shown, comp.prev, comp.havePrev, comp.screen
    ensures Wired(screen, comp) && screen.InSync()
    ensures frames != [] ==> ShowsFrame(screen, comp.decor, frames[|frames| - 1])
  {
    hide Flagged, Snapshots, Overlay, Picture;
    for i := 0 to |frames|
      invariant Wired(screen, comp) && screen.InSync()
      invariant if i == 0 then comp.firstFrame else comp.shown == frames[i - 1].scene
      invariant i > 0 ==> ShowsFrame(screen, comp.decor, frames[i - 1])
    {
      OneFrame(screen, comp, frames[i]);
    }
  }
}
