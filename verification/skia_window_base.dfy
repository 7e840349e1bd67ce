/**
 * os/skia/skia_window_base.h: the Skia surface a window draws into.
 *
 * A SkiaSurface is reduced to its size and the colour space it was
 * created with; `creates` counts the calls to SkiaSurface::create, so
 * that "no reallocation" can be stated.  A colour space is named by a
 * number, null being `None`.  The native window supplies the scale and
 * the client size.  Events given to os::queue_event go to the global
 * queue; the model keeps the ones this window queues in `queued`.
 */
module SkiaWindowBase {
  import opened Wrappers
  import opened Geometry
  import opened Events

  /** A SkiaSurface: its pixel size and colour space.  A default-constructed one has no pixels. */
  datatype Surface = Surface(w: int, h: int, colorSpace: Option<nat>)

  /** The surface fields shared by SkiaWindowBase and SkiaDisplay. */
  datatype SurfaceState = SurfaceState(initialized: bool, surface: Option<Surface>, colorSpace: Option<nat>,
                                       custom: bool, creates: nat)

  /** The size of the backing surface for a client size: each side divided by the scale, and at least 1. */
  function TargetSize(size: Size, scale: int): (t: Size)
    requires scale > 0
    ensures t.w >= 1 && t.h >= 1
    ensures size.w >= scale ==> t.w * scale <= size.w < (t.w + 1) * scale
    ensures size.h >= scale ==> t.h * scale <= size.h < (t.h + 1) * scale
    ensures size.w < scale ==> t.w == 1
    ensures size.h < scale ==> t.h == 1
    ensures scale == 1 && size.w >= 1 && size.h >= 1 ==> t == size
  {
    Size(AtLeastOne(TruncDiv(size.w, scale)), AtLeastOne(TruncDiv(size.h, scale)))
  }

  /** Whether a surface exists with exactly a given size. */
  predicate HasSize(s: Option<Surface>, t: Size)
  {
    s.Some? && s.value.w == t.w && s.value.h == t.h
  }

  /**
   * resizeSkiaSurface: nothing before initialisation or with a custom
   * surface; no reallocation when the surface already has the target
   * size; otherwise a surface of the target size in the current colour
   * space.
   */
  function Resize(st: SurfaceState, size: Size, scale: int): (r: SurfaceState)
    requires scale > 0
    ensures !st.initialized || st.custom ==> r == st
    ensures st.initialized && !st.custom ==> HasSize(r.surface, TargetSize(size, scale))
    ensures st.initialized && !st.custom ==>
              (r.creates == st.creates <==> HasSize(st.surface, TargetSize(size, scale)))
    ensures r.creates != st.creates ==>
              r.creates == st.creates + 1 && r.surface == Some(Surface(TargetSize(size, scale).w, TargetSize(size, scale).h, st.colorSpace))
    ensures r.creates == st.creates ==> r == st
    ensures r.initialized == st.initialized && r.custom == st.custom && r.colorSpace == st.colorSpace
  {
    if !st.initialized || st.custom then st
    else
      var t := TargetSize(size, scale);
      if HasSize(st.surface, t) then st
      else st.(surface := Some(Surface(t.w, t.h, st.colorSpace)), creates := st.creates + 1)
  }

  /** Resizing twice to the same size allocates once at most: the second call changes nothing. */
  lemma ResizeIdempotent(st: SurfaceState, size: Size, scale: int)
    requires scale > 0
    ensures Resize(Resize(st, size, scale), size, scale) == Resize(st, size, scale)
  {
    var r := Resize(st, size, scale);
    if st.initialized && !st.custom {
      assert HasSize(r.surface, TargetSize(size, scale));
    }
  }

  /**
   * resetSkiaSurface: the surface is dropped, custom is cleared, and the
   * surface is resized to the client size; before initialisation that
   * leaves no surface at all.
   */
  function Reset(st: SurfaceState, clientSize: Size, scale: int): (r: SurfaceState)
    requires scale > 0
    ensures !r.custom && r.initialized == st.initialized && r.colorSpace == st.colorSpace
    ensures !st.initialized ==> r.surface.None? && r.creates == st.creates
    ensures st.initialized ==>
              r.surface == Some(Surface(TargetSize(clientSize, scale).w, TargetSize(clientSize, scale).h, st.colorSpace)) &&
              r.creates == st.creates + 1
  {
    Resize(st.(surface := None, custom := false), clientSize, scale)
  }

  /** initializeSurface: the flag is set and the surface reset, so a surface of at least 1x1 exists afterwards. */
  function Initialize(st: SurfaceState, clientSize: Size, scale: int): (r: SurfaceState)
    requires scale > 0
    ensures r.initialized && !r.custom
    ensures r.surface.Some? && r.surface.value.w >= 1 && r.surface.value.h >= 1
    ensures r.surface.value.colorSpace == st.colorSpace
  {
    Reset(st.(initialized := true), clientSize, scale)
  }

  /**
   * setColorSpace on the surface fields: the space is stored, and the
   * surface is reset only when there is one.
   */
  function ChangeColorSpace(st: SurfaceState, cs: nat, clientSize: Size, scale: int): (r: SurfaceState)
    requires scale > 0
    ensures r.colorSpace == Some(cs) && r.initialized == st.initialized
    ensures st.surface.None? ==> r == st.(colorSpace := Some(cs))
    ensures st.surface.Some? && st.initialized ==> r.surface.Some? && r.surface.value.colorSpace == Some(cs) && !r.custom
    ensures st.surface.Some? && !st.initialized ==> r.surface.None?
  {
    var st' := st.(colorSpace := Some(cs));
    if st'.surface.Some? then Reset(st', clientSize, scale) else st'
  }

  /** Once initialised, a window that is not given a custom surface always has one of the target size after a resize, whatever came before. */
  lemma {:induction false} ResizesKeepSurface(st: SurfaceState, sizes: seq<Size>, scale: int)
    requires scale > 0 && st.initialized && !st.custom && |sizes| > 0
    ensures HasSize(ResizeAll(st, sizes, scale).surface, TargetSize(sizes[|sizes| - 1], scale))
    ensures ResizeAll(st, sizes, scale).creates <= st.creates + |sizes|
  {
    if |sizes| > 1 {
      ResizesKeepSurface(st, sizes[..|sizes| - 1], scale);
    }
  }

  /** A series of resizeSkiaSurface calls. */
  function ResizeAll(st: SurfaceState, sizes: seq<Size>, scale: int): (r: SurfaceState)
    requires scale > 0
    ensures r.initialized == st.initialized && r.custom == st.custom
  {
    if sizes == [] then st else Resize(ResizeAll(st, sizes[..|sizes| - 1], scale), sizes[|sizes| - 1], scale)
  }

  /** SkiaWindowBase<T> */
  class SkiaWindowBase {
    const id: nat
    var scale: int
    var clientSize: Size
    var initialized: bool
    var surface: Option<Surface>
    var colorSpace: Option<nat>
    var customSurface: bool
    var creates: nat
    var queued: seq<Event>

    /** The surface fields as one value. */
    function Current(): SurfaceState
      reads this
    {
      SurfaceState(initialized, surface, colorSpace, customSurface, creates)
    }

    /** A new window is not initialised and holds an empty default surface, with no colour space. */
    constructor (id: nat, scale: int, clientSize: Size)
      requires scale > 0
      ensures this.id == id && this.scale == scale && this.clientSize == clientSize
      ensures Current() == SurfaceState(false, Some(Surface(0, 0, None)), None, false, 0)
      ensures queued == []
    {
      this.id := id;
      this.scale := scale;
      this.clientSize := clientSize;
      initialized := false;
      surface := Some(Surface(0, 0, None));
      colorSpace := None;
      customSurface := false;
      creates := 0;
      queued := [];
    }

    /** initColorSpace: the colour space the native window reports. */
    method InitColorSpace(cs: Option<nat>)
      modifies this
      ensures Current() == old(Current()).(colorSpace := cs)
      ensures scale == old(scale) && clientSize == old(clientSize) && queued == old(queued)
    {
      colorSpace := cs;
    }

    predicate IsInitialized()
      reads this
    {
      initialized
    }

    /** setSkiaSurface: the given surface is used as it is, and resizes leave it alone. */
    method SetSkiaSurface(s: Surface)
      modifies this
      ensures Current() == old(Current()).(surface := Some(s), custom := true)
      ensures scale == old(scale) && clientSize == old(clientSize) && queued == old(queued)
    {
      surface := Some(s);
      customSurface := true;
    }

    /** resizeSkiaSurface */
    method ResizeSkiaSurface(size: Size)
      requires scale > 0
      modifies this
      ensures Current() == Resize(old(Current()), size, old(scale))
      ensures scale == old(scale) && clientSize == old(clientSize) && queued == old(queued)
    {
      if !initialized || customSurface {
        return;
      }
      var t := Size(AtLeastOne(TruncDiv(size.w, scale)), AtLeastOne(TruncDiv(size.h, scale)));
      if initialized && surface.Some? && surface.value.w == t.w && surface.value.h == t.h {
        return;
      }
      surface := Some(Surface(t.w, t.h, colorSpace));
      creates := creates + 1;
    }

    /** resetSkiaSurface */
    method ResetSkiaSurface()
      requires scale > 0
      modifies this
      ensures Current() == Reset(old(Current()), old(clientSize), old(scale))
      ensures scale == old(scale) && clientSize == old(clientSize) && queued == old(queued)
    {
      if surface.Some? {
        surface := None;
      }
      customSurface := false;
      ResizeSkiaSurface(clientSize);
    }

    /** setColorSpace: the surface is rebuilt if there is one, and exactly one ResizeWindow event is queued. */
    method SetColorSpace(cs: nat)
      requires scale > 0
      modifies this
      ensures Current() == ChangeColorSpace(old(Current()), cs, old(clientSize), old(scale))
      ensures queued == old(queued) + [WindowEvent(ResizeWindow, id)]
      ensures scale == old(scale) && clientSize == old(clientSize)
    {
      colorSpace := Some(cs);
      if surface.Some? {
        ResetSkiaSurface();
      }
      queued := queued + [WindowEvent(ResizeWindow, id)];
    }

    /** initializeSurface */
    method InitializeSurface()
      requires scale > 0
      modifies this
      ensures Current() == Initialize(old(Current()), old(clientSize), old(scale))
      ensures scale == old(scale) && clientSize == old(clientSize) && queued == old(queued)
    {
      initialized := true;
      ResetSkiaSurface();
    }
  }

  /** Before initialisation, resetting the surface leaves the window without one, and a new window is not initialised. */
  method ResetBeforeInitialize(id: nat, scale: int, clientSize: Size) returns (initialized: bool, hasSurface: bool)
    requires scale > 0
    ensures !initialized && !hasSurface
  {
    var w := new SkiaWindowBase(id, scale, clientSize);
    w.ResetSkiaSurface();
    initialized := w.IsInitialized();
    hasSurface := w.surface.Some?;
  }
}
