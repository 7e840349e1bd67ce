/**
 * os/skia/skia_display.cpp: the older display class, which keeps the same
 * surface fields as SkiaWindowBase and follows the same sizing rule, plus
 * a cache of the native mouse cursor.
 *
 * The native window it wraps is reduced to its scale and client size, and
 * to the result of its own setNativeMouseCursor, which is an input.  The
 * event's display is kept in the event's window field.
 */
module SkiaDisplay {
  import opened Wrappers
  import opened Geometry
  import opened Events
  import opened SkiaWindowBase

  /** os::NativeCursor, named by number; kArrowCursor is 1. */
  const ArrowCursor: nat := 1

  class SkiaDisplay {
    const id: nat
    var scale: int
    var clientSize: Size
    var initialized: bool
    var surface: Option<Surface>
    var colorSpace: Option<nat>
    var customSurface: bool
    var creates: nat
    var nativeCursor: nat
    var queued: seq<Event>

    function Current(): SurfaceState
      reads this
    {
      SurfaceState(initialized, surface, colorSpace, customSurface, creates)
    }

    /**
     * The constructor marks the display initialised and then resets the
     * surface, so a display always starts with a surface of at least 1x1
     * in the native window's colour space, and the arrow cursor.
     */
    constructor (id: nat, scale: int, clientSize: Size, windowColorSpace: Option<nat>)
      requires scale > 0
      ensures this.id == id && this.scale == scale && this.clientSize == clientSize
      ensures initialized && !customSurface && colorSpace == windowColorSpace
      ensures surface == Some(Surface(TargetSize(clientSize, scale).w, TargetSize(clientSize, scale).h, windowColorSpace))
      ensures surface.value.w >= 1 && surface.value.h >= 1
      ensures nativeCursor == ArrowCursor && queued == []
    {
      this.id := id;
      this.scale := scale;
      this.clientSize := clientSize;
      initialized := false;
      surface := Some(Surface(0, 0, None));
      colorSpace := windowColorSpace;
      customSurface := false;
      creates := 0;
      nativeCursor := ArrowCursor;
      queued := [];
      new;
      initialized := true;
      ResetSkiaSurface();
    }

    /** setSkiaSurface */
    method SetSkiaSurface(s: Surface)
      modifies this
      ensures Current() == old(Current()).(surface := Some(s), custom := true)
      ensures scale == old(scale) && clientSize == old(clientSize) && queued == old(queued) && nativeCursor == old(nativeCursor)
    {
      surface := Some(s);
      customSurface := true;
    }

    /** resizeSkiaSurface: the same guard, clamp and same-size test as the window base. */
    method ResizeSkiaSurface(size: Size)
      requires scale > 0
      modifies this
      ensures Current() == Resize(old(Current()), size, old(scale))
      ensures scale == old(scale) && clientSize == old(clientSize) && queued == old(queued) && nativeCursor == old(nativeCursor)
    {
      if !initialized || customSurface {
        return;
      }
      var newSize := Size(AtLeastOne(TruncDiv(size.w, scale)), AtLeastOne(TruncDiv(size.h, scale)));
      if initialized && surface.Some? && surface.value.w == newSize.w && surface.value.h == newSize.h {
        return;
      }
      surface := Some(Surface(newSize.w, newSize.h, colorSpace));
      creates := creates + 1;
    }

    /** resetSkiaSurface: custom is cleared and the surface resized to the client size. */
    method ResetSkiaSurface()
      requires scale > 0
      modifies this
      ensures Current() == Reset(old(Current()), old(clientSize), old(scale))
      ensures scale == old(scale) && clientSize == old(clientSize) && queued == old(queued) && nativeCursor == old(nativeCursor)
    {
      if surface.Some? {
        surface := None;
      }
      customSurface := false;
      ResizeSkiaSurface(clientSize);
    }

    /** setColorSpace: the surface is rebuilt if there is one, and one ResizeDisplay event is queued. */
    method SetColorSpace(cs: nat)
      requires scale > 0
      modifies this
      ensures Current() == ChangeColorSpace(old(Current()), cs, old(clientSize), old(scale))
      ensures queued == old(queued) + [WindowEvent(ResizeDisplay, id)]
      ensures scale == old(scale) && clientSize == old(clientSize) && nativeCursor == old(nativeCursor)
    {
      colorSpace := Some(cs);
      if surface.Some? {
        ResetSkiaSurface();
      }
      queued := queued + [WindowEvent(ResizeDisplay, id)];
    }

    /** setScale: the window's scale; a later resize uses it. */
    method SetScale(s: int)
      requires s > 0
      modifies this
      ensures scale == s && Current() == old(Current()) && clientSize == old(clientSize)
      ensures queued == old(queued) && nativeCursor == old(nativeCursor)
    {
      scale := s;
    }

    /** nativeMouseCursor: the last cursor asked for. */
    function NativeMouseCursor(): nat
      reads this
    {
      nativeCursor
    }

    /** setNativeMouseCursor: the cursor is cached before the native window is asked, whose answer is returned. */
    method SetNativeMouseCursor(cursor: nat, nativeResult: bool) returns (ok: bool)
      modifies this
      ensures nativeCursor == cursor && ok == nativeResult
      ensures Current() == old(Current()) && scale == old(scale) && clientSize == old(clientSize) && queued == old(queued)
    {
      nativeCursor := cursor;
      ok := nativeResult;
    }
  }

  /**
   * A display reports the last cursor asked for even when the native
   * window refused it, and it has a surface from the start.
   */
  method CursorCached(cursor: nat, scale: int, clientSize: Size) returns (reported: nat, ok: bool, hasSurface: bool)
    requires scale > 0
    ensures reported == cursor && !ok && hasSurface
  {
    var d := new SkiaDisplay(0, scale, clientSize, None);
    ok := d.SetNativeMouseCursor(cursor, false);
    reported := d.NativeMouseCursor();
    hasSurface := d.surface.Some?;
  }
}
