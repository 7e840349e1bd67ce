/**
 * os/skia/skia_window_x11.cpp: the X11 Skia window.
 *
 * The window's surface fields live in its SkiaWindowBase part, `base`;
 * `queue` is the EventQueueX11 it was created with.  XPutImage and the
 * Skia drawing are not part of this model: a paint is reduced to the
 * source rectangle it reads from the surface and to the growth of the
 * scratch buffer `m_buffer`, kept as its size in bytes.
 */
module SkiaWindowX11 {
  import opened Wrappers
  import opened Geometry
  import opened Events
  import opened SkiaWindowBase
  import X11EventQueue

  /** SkImageInfo::computeByteSize with minRowBytes: w * bytesPerPixel per row, for h rows. */
  function RequiredBytes(w: nat, h: nat, bytesPerPixel: nat): (n: nat)
    ensures h == 0 || w == 0 || bytesPerPixel == 0 ==> n == 0
  {
    h * (w * bytesPerPixel)
  }

  /** The rectangle of the surface a scaled paint reads: the dirty rectangle divided by the scale. */
  function SourceRect(rc: Rect, scale: int): (r: Rect)
    requires scale > 0
    ensures scale == 1 ==> r == rc
    ensures rc.x >= 0 ==> r.x * scale <= rc.x < (r.x + 1) * scale
    ensures rc.w >= 0 ==> r.w * scale <= rc.w < (r.w + 1) * scale
  {
    Rect(TruncDiv(rc.x, scale), TruncDiv(rc.y, scale), TruncDiv(rc.w, scale), TruncDiv(rc.h, scale))
  }

  /** SkiaWindowX11 */
  class SkiaWindowX11 {
    const base: SkiaWindowBase
    const queue: X11EventQueue.EventQueueX11
    var buffer: nat
    var handled: nat

    constructor (id: nat, scale: int, clientSize: Size, queue: X11EventQueue.EventQueueX11, monitorColorSpace: Option<nat>)
      requires scale > 0
      ensures fresh(base) && base.id == id && base.scale == scale && base.clientSize == clientSize
      ensures base.Current() == SurfaceState(false, Some(Surface(0, 0, None)), monitorColorSpace, false, 0)
      ensures base.queued == [] && this.queue == queue && buffer == 0 && handled == 0
    {
      var b := new SkiaWindowBase(id, scale, clientSize);
      b.InitColorSpace(monitorColorSpace);
      base := b;
      this.queue := queue;
      buffer := 0;
      handled := 0;
    }

    /** onQueueEvent: the event is tied to this window before it goes to the back of the queue. */
    method OnQueueEvent(ev: Event) returns (sent: Event)
      modifies queue
      ensures sent == ev.(window := Some(base.id))
      ensures queue.events == old(queue.events) + [sent]
      ensures queue.pending == old(queue.pending) && queue.waits == old(queue.waits)
    {
      sent := ev.(window := Some(base.id));
      queue.QueueEvent(sent);
    }

    /**
     * onResize: the surface is resized first; then the handler is called
     * when it is set and the window is initialised, and otherwise a
     * ResizeWindow event is queued, on every call.
     */
    method OnResize(size: Size, hasHandler: bool)
      requires base.scale > 0
      modifies this, base
      ensures base.Current() == Resize(old(base.Current()), size, old(base.scale))
      ensures hasHandler && base.initialized ==> handled == old(handled) + 1 && base.queued == old(base.queued)
      ensures !(hasHandler && base.initialized) ==>
                handled == old(handled) && base.queued == old(base.queued) + [WindowEvent(ResizeWindow, base.id)]
      ensures buffer == old(buffer) && base.scale == old(base.scale) && base.clientSize == old(base.clientSize)
    {
      base.ResizeSkiaSurface(size);
      if hasHandler && base.initialized {
        handled := handled + 1;
      } else {
        base.queued := base.queued + [WindowEvent(ResizeWindow, base.id)];
      }
    }

    /**
     * onPaint: at scale 1 the dirty rectangle is copied as it is; at any
     * other scale the buffer grows to the size the scaled pixels need,
     * never shrinking, and the surface is read from the scaled-down
     * rectangle.
     */
    method OnPaint(rc: Rect, bytesPerPixel: nat) returns (src: Rect)
      requires base.scale > 0 && rc.w >= 0 && rc.h >= 0
      modifies this
      ensures src == SourceRect(rc, base.scale)
      ensures base.scale == 1 ==> buffer == old(buffer)
      ensures base.scale != 1 ==> buffer == Max(old(buffer), RequiredBytes(rc.w, rc.h, bytesPerPixel))
      ensures buffer >= old(buffer) && handled == old(handled)
    {
      if base.scale == 1 {
        src := rc;
      } else {
        var required := RequiredBytes(rc.w, rc.h, bytesPerPixel);
        if required > buffer {
          buffer := required;
        }
        src := SourceRect(rc, base.scale);
      }
    }
  }

  /** Without coalescing, each resize of a window that is not initialised yet queues its own ResizeWindow event. */
  method EveryResizeQueues(id: nat, scale: int, clientSize: Size, sizes: seq<Size>, hasHandler: bool)
    returns (queued: seq<Event>)
    requires scale > 0
    ensures |queued| == |sizes|
    ensures forall i :: 0 <= i < |queued| ==> queued[i] == WindowEvent(ResizeWindow, id)
  {
    var q := new X11EventQueue.EventQueueX11();
    var w := new SkiaWindowX11(id, scale, clientSize, q, None);
    var i := 0;
    while i < |sizes|
      invariant 0 <= i <= |sizes|
      invariant !w.base.initialized && w.base.scale == scale && w.base.id == id
      invariant |w.base.queued| == i
      invariant forall j :: 0 <= j < i ==> w.base.queued[j] == WindowEvent(ResizeWindow, id)
    {
      w.OnResize(sizes[i], hasHandler);
      i := i + 1;
    }
    queued := w.base.queued;
  }
}
