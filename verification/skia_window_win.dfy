/**
 * os/skia/skia_window_win.cpp: the Win32 Skia window.
 *
 * The window's surface fields live in its SkiaWindowBase part, `base`.
 * What Win32, WGL and ANGLE decide is an input: whether GPU acceleration
 * is on, and whether a new EGL or WGL context could be made.  The build
 * options SK_SUPPORT_GPU and SK_ANGLE are the constants `gpuSupport` and
 * `angleSupport`; the GL context is reduced to whether it exists, and
 * the application's handleWindowResize callback to whether it is set,
 * with `handled` counting its calls.
 */
module SkiaWindowWin {
  import opened Wrappers
  import opened Geometry
  import opened Events
  import opened SkiaWindowBase

  datatype Backend = NONE | GL | ANGLE

  /** A Win32 RECT: left, top, right, bottom. */
  datatype WinRect = WinRect(left: int, top: int, right: int, bottom: int)

  /**
   * The size of the offscreen render target: the window size at scale 1,
   * else each side divided by the scale and at least 1, which is the
   * surface sizing rule of SkiaWindowBase.
   */
  function RenderTargetSize(size: Size, scale: int): (t: Size)
    requires scale > 0
    ensures scale == 1 ==> t == size
    ensures scale > 1 ==> t == TargetSize(size, scale)
  {
    if scale == 1 then size
    else Size(AtLeastOne(TruncDiv(size.w, scale)), AtLeastOne(TruncDiv(size.h, scale)))
  }

  /** The dirty rectangle a transparent window hands to UpdateLayeredWindowIndirect: the region bounds in device pixels. */
  function DirtyRect(bounds: Rect, scale: int): (r: WinRect)
    requires scale > 0
    ensures r.right - r.left == scale * bounds.w && r.bottom - r.top == scale * bounds.h
    ensures r.left == scale * bounds.x && r.top == scale * bounds.y
    ensures scale == 1 ==> r == WinRect(bounds.x, bounds.y, bounds.X2(), bounds.Y2())
  {
    WinRect(scale * bounds.x, scale * bounds.y, scale * bounds.X2(), scale * bounds.Y2())
  }

  /** The backend onResize ends with, given whether a context already existed and whether new ones could be made. */
  function ChosenBackend(gpuSupport: bool, angleSupport: bool, gpu: bool, hadContext: bool, angleOk: bool, glOk: bool)
    : (b: Backend)
    ensures b == ANGLE <==> gpuSupport && angleSupport && gpu && (hadContext || angleOk)
    ensures b == GL <==> gpuSupport && gpu && !(angleSupport && (hadContext || angleOk)) && (hadContext || glOk)
    ensures !gpu || !gpuSupport ==> b == NONE
  {
    if gpuSupport && angleSupport && gpu && (hadContext || angleOk) then ANGLE
    else if gpuSupport && gpu && (hadContext || glOk) then GL
    else NONE
  }

  /** What onPaint-independent invalidateRegion does. */
  datatype Invalidation = Delegated | Skipped | Layered(dirty: WinRect)

  /** SkiaWindowWin */
  class SkiaWindowWin {
    const base: SkiaWindowBase
    const gpuSupport: bool
    const angleSupport: bool
    var backend: Backend
    var resizing: bool
    var glContext: bool
    var lastSize: Size
    var handled: nat

    /** A new window has no backend, is not being resized, and takes the colour space of its monitor. */
    constructor (id: nat, scale: int, clientSize: Size, monitorColorSpace: Option<nat>, gpuSupport: bool, angleSupport: bool)
      requires scale > 0
      ensures fresh(base) && base.id == id && base.scale == scale && base.clientSize == clientSize
      ensures base.Current() == SurfaceState(false, Some(Surface(0, 0, None)), monitorColorSpace, false, 0)
      ensures base.queued == []
      ensures backend == NONE && !resizing && !glContext && handled == 0
      ensures this.gpuSupport == gpuSupport && this.angleSupport == angleSupport
    {
      var b := new SkiaWindowBase(id, scale, clientSize);
      b.InitColorSpace(monitorColorSpace);
      base := b;
      this.gpuSupport := gpuSupport;
      this.angleSupport := angleSupport;
      backend := NONE;
      resizing := false;
      glContext := false;
      lastSize := Size(0, 0);
      handled := 0;
    }

    /** attachANGLE: an existing context is kept; otherwise the new EGL context is used if it could be made. */
    method AttachAngle(contextOk: bool) returns (ok: bool)
      modifies this
      ensures glContext == (old(glContext) || contextOk) && ok == glContext
      ensures backend == old(backend) && resizing == old(resizing) && handled == old(handled) && lastSize == old(lastSize)
    {
      if !glContext {
        glContext := contextOk;
      }
      ok := glContext;
    }

    /** attachGL: the same with a WGL context. */
    method AttachGL(contextOk: bool) returns (ok: bool)
      modifies this
      ensures glContext == (old(glContext) || contextOk) && ok == glContext
      ensures backend == old(backend) && resizing == old(resizing) && handled == old(handled) && lastSize == old(lastSize)
    {
      if !glContext {
        glContext := contextOk;
      }
      ok := glContext;
    }

    /** detachGL: with a context, the window goes back to its own raster surface; the context is dropped. */
    method DetachGL()
      requires base.scale > 0
      modifies this, base
      ensures !glContext
      ensures base.Current() == (if old(glContext) then Reset(old(base.Current()), old(base.clientSize), old(base.scale)) else old(base.Current()))
      ensures base.scale == old(base.scale) && base.clientSize == old(base.clientSize) && base.queued == old(base.queued)
      ensures backend == old(backend) && resizing == old(resizing) && handled == old(handled) && lastSize == old(lastSize)
    {
      if glContext {
        base.ResetSkiaSurface();
      }
      glContext := false;
    }

    /** createRenderTarget: the window draws into a custom surface of the render-target size. */
    method CreateRenderTarget(size: Size)
      requires base.scale > 0
      modifies this, base
      ensures lastSize == size
      ensures base.Current() == old(base.Current()).(surface := Some(Surface(RenderTargetSize(size, old(base.scale)).w, RenderTargetSize(size, old(base.scale)).h, None)), custom := true)
      ensures base.scale == old(base.scale) && base.clientSize == old(base.clientSize) && base.queued == old(base.queued)
      ensures backend == old(backend) && resizing == old(resizing) && handled == old(handled) && glContext == old(glContext)
    {
      lastSize := size;
      var t := RenderTargetSize(size, base.scale);
      base.SetSkiaSurface(Surface(t.w, t.h, None));
    }

    /**
     * onResize: the backend is chosen, the surface follows it, and then
     * either the handler is called (when set and the window is
     * initialised) or, unless a live resize is going on, a ResizeWindow
     * event is queued.
     */
    method OnResize(size: Size, gpu: bool, angleOk: bool, glOk: bool, hasHandler: bool)
      requires base.scale > 0
      modifies this, base
      ensures backend == ChosenBackend(gpuSupport, angleSupport, gpu, old(glContext), angleOk, glOk)
      ensures gpuSupport ==> (glContext <==> backend != NONE)
      ensures gpuSupport && glContext ==> base.customSurface && HasSize(base.surface, RenderTargetSize(size, old(base.scale)))
      ensures !gpuSupport ==> base.Current() == Resize(old(base.Current()), size, old(base.scale))
      ensures gpuSupport && !glContext ==>
                base.Current() == Resize(if old(glContext) then Reset(old(base.Current()), old(base.clientSize), old(base.scale))
                                         else old(base.Current()), size, old(base.scale))
      ensures gpuSupport && glContext ==>
                base.Current() == Resize(old(base.Current()).(surface := Some(Surface(RenderTargetSize(size, old(base.scale)).w, RenderTargetSize(size, old(base.scale)).h, None)), custom := true), size, old(base.scale))
      ensures lastSize == (if gpuSupport && glContext then size else old(lastSize))
      ensures hasHandler && base.initialized ==> handled == old(handled) + 1 && base.queued == old(base.queued)
      ensures !(hasHandler && base.initialized) && !resizing ==>
                handled == old(handled) && base.queued == old(base.queued) + [WindowEvent(ResizeWindow, base.id)]
      ensures !(hasHandler && base.initialized) && resizing ==> handled == old(handled) && base.queued == old(base.queued)
      ensures resizing == old(resizing) && base.initialized == old(base.initialized)
      ensures base.scale == old(base.scale) && base.clientSize == old(base.clientSize)
    {
      ChooseBackend(gpu, angleOk, glOk);
      if gpuSupport && glContext {
        CreateRenderTarget(size);
      }
      base.ResizeSkiaSurface(size);
      if hasHandler && base.initialized {
        handled := handled + 1;
      } else if !resizing {
        base.queued := base.queued + [WindowEvent(ResizeWindow, base.id)];
      }
    }

    /** The first step of onResize: ANGLE if it attaches, else GL if it attaches, else no GPU backend at all. */
    method ChooseBackend(gpu: bool, angleOk: bool, glOk: bool)
      requires base.scale > 0
      modifies this, base
      ensures backend == ChosenBackend(gpuSupport, angleSupport, gpu, old(glContext), angleOk, glOk)
      ensures gpuSupport ==> (glContext <==> backend != NONE)
      ensures !gpuSupport ==> glContext == old(glContext)
      ensures base.Current() == (if gpuSupport && old(glContext) && backend == NONE
                                 then Reset(old(base.Current()), old(base.clientSize), old(base.scale))
                                 else old(base.Current()))
      ensures resizing == old(resizing) && handled == old(handled) && lastSize == old(lastSize)
      ensures base.initialized == old(base.initialized) && base.scale == old(base.scale)
      ensures base.clientSize == old(base.clientSize) && base.queued == old(base.queued)
    {
      var chosen := false;
      if angleSupport && gpuSupport && gpu {
        var ok := AttachAngle(angleOk);
        if ok {
          backend := ANGLE;
          chosen := true;
        }
      }
      if !chosen && gpuSupport && gpu {
        var ok := AttachGL(glOk);
        if ok {
          backend := GL;
          chosen := true;
        }
      }
      if !chosen {
        if gpuSupport {
          DetachGL();
        }
        backend := NONE;
      }
    }

    /** onStartResizing */
    method OnStartResizing()
      modifies this
      ensures resizing
      ensures backend == old(backend) && glContext == old(glContext) && handled == old(handled) && lastSize == old(lastSize)
    {
      resizing := true;
    }

    /** onEndResizing: the live resize is over, and exactly one ResizeWindow event is queued. */
    method OnEndResizing()
      modifies this, base
      ensures !resizing
      ensures base.queued == old(base.queued) + [WindowEvent(ResizeWindow, base.id)]
      ensures base.Current() == old(base.Current()) && base.scale == old(base.scale) && base.clientSize == old(base.clientSize)
      ensures backend == old(backend) && glContext == old(glContext) && handled == old(handled) && lastSize == old(lastSize)
    {
      resizing := false;
      base.queued := base.queued + [WindowEvent(ResizeWindow, base.id)];
    }

    /**
     * onChangeColorSpace: setColorSpace with colorSpace(), which the base
     * overrides to return the colour space it already holds.
     */
    method OnChangeColorSpace()
      requires base.scale > 0 && base.colorSpace.Some?
      modifies base
      ensures base.colorSpace == old(base.colorSpace)
      ensures base.Current() == ChangeColorSpace(old(base.Current()), old(base.colorSpace).value, old(base.clientSize), old(base.scale))
      ensures base.queued == old(base.queued) + [WindowEvent(ResizeWindow, base.id)]
    {
      base.SetColorSpace(base.colorSpace.value);
    }

    /**
     * invalidateRegion: an opaque window leaves it to the Win32 window;
     * a transparent one with a usable surface (one with pixels) updates
     * the layered window with the dirty rectangle scaled to device pixels.
     */
    method InvalidateRegion(transparent: bool, regionBounds: Rect) returns (r: Invalidation)
      requires base.scale > 0
      ensures !transparent ==> r == Delegated
      ensures transparent && !(base.surface.Some? && base.surface.value.w >= 1 && base.surface.value.h >= 1) ==> r == Skipped
      ensures transparent && base.surface.Some? && base.surface.value.w >= 1 && base.surface.value.h >= 1 ==>
                r == Layered(DirtyRect(regionBounds, base.scale))
    {
      if !transparent {
        return Delegated;
      }
      if !(base.surface.Some? && base.surface.value.w >= 1 && base.surface.value.h >= 1) {
        return Skipped;
      }
      r := Layered(DirtyRect(regionBounds, base.scale));
    }

    /** The destructor: the GL context is detached for the GL and ANGLE backends only. */
    method Destroy() returns (detached: bool)
      requires base.scale > 0
      modifies this, base
      ensures detached <==> old(backend) != NONE
      ensures !detached ==> base.Current() == old(base.Current())
    {
      detached := false;
      match backend {
        case NONE =>
        case GL =>
          DetachGL();
          detached := true;
        case ANGLE =>
          DetachGL();
          detached := true;
      }
    }
  }

  /**
   * Resizes during a live resize queue nothing; the end of the live
   * resize queues one ResizeWindow event, however many resizes came
   * before (here on a window that is not initialised yet, so the handler
   * is not called).
   */
  method LiveResizeQueuesOnce(id: nat, scale: int, clientSize: Size, sizes: seq<Size>, hasHandler: bool)
    returns (queued: seq<Event>, handled: nat)
    requires scale > 0
    ensures queued == [WindowEvent(ResizeWindow, id)] && handled == 0
  {
    var w := new SkiaWindowWin(id, scale, clientSize, None, false, false);
    w.OnStartResizing();
    var i := 0;
    while i < |sizes|
      invariant 0 <= i <= |sizes|
      invariant w.resizing && !w.base.initialized && w.base.scale == scale && w.base.id == id
      invariant w.base.queued == [] && w.handled == 0
    {
      w.OnResize(sizes[i], false, false, false, hasHandler);
      i := i + 1;
    }
    w.OnEndResizing();
    queued, handled := w.base.queued, w.handled;
  }
}
