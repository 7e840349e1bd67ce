/**
 * os/osx/window_delegate.h: the Cocoa window delegate, which forwards
 * window notifications to the OSXWindowImpl it holds a weak reference to.
 *
 * The implementation is named by a number, a null one being `None`; the
 * calls the delegate makes on it are kept, in order, in `calls`.
 */
module OsxWindowDelegate {
  import opened Wrappers
  import opened Geometry
  import opened Events

  /** A call the delegate makes on its window implementation. */
  datatype ImplCall =
    | QueueEvent(ev: Event)
    | OnClose
    | OnStartResizing
    | OnResizing(size: Size)
    | OnEndResizing

  /** OSXWindowDelegate */
  class WindowDelegate {
    var impl: Option<nat>
    var calls: seq<ImplCall>

    /** initWithWindowImpl */
    constructor (impl: Option<nat>)
      ensures this.impl == impl && calls == []
    {
      this.impl := impl;
      calls := [];
    }

    /** removeImpl: once the implementation is gone the delegate forwards nothing. */
    method RemoveImpl()
      modifies this
      ensures impl.None? && calls == old(calls)
    {
      impl := None;
    }

    /** Forwards one call when there is an implementation. */
    method Forward(c: ImplCall)
      modifies this
      ensures impl == old(impl)
      ensures old(impl).Some? ==> calls == old(calls) + [c]
      ensures old(impl).None? ==> calls == old(calls)
    {
      if impl.Some? {
        calls := calls + [c];
      }
    }

    /** windowShouldClose: a CloseDisplay event is queued and the window is never closed here. */
    method WindowShouldClose() returns (shouldClose: bool)
      modifies this
      ensures !shouldClose && impl == old(impl)
      ensures old(impl).Some? ==> calls == old(calls) + [QueueEvent(Event(CloseDisplay, None, 0))]
      ensures old(impl).None? ==> calls == old(calls)
    {
      Forward(QueueEvent(Event(CloseDisplay, None, 0)));
      shouldClose := false;
    }

    /** windowWillClose */
    method WindowWillClose()
      modifies this
      ensures impl == old(impl)
      ensures old(impl).Some? ==> calls == old(calls) + [OnClose]
      ensures old(impl).None? ==> calls == old(calls)
    {
      Forward(OnClose);
    }

    /** windowWillStartLiveResize */
    method WindowWillStartLiveResize()
      modifies this
      ensures impl == old(impl)
      ensures old(impl).Some? ==> calls == old(calls) + [OnStartResizing]
      ensures old(impl).None? ==> calls == old(calls)
    {
      Forward(OnStartResizing);
    }

    /**
     * windowWillResize:toSize: the implementation hears the content
     * view's current size, and the proposed frame size is accepted as it is.
     */
    method WindowWillResize(contentSize: Size, frameSize: Size) returns (accepted: Size)
      modifies this
      ensures accepted == frameSize && impl == old(impl)
      ensures old(impl).Some? ==> calls == old(calls) + [OnResizing(contentSize)]
      ensures old(impl).None? ==> calls == old(calls)
    {
      Forward(OnResizing(contentSize));
      accepted := frameSize;
    }

    /** windowDidEndLiveResize */
    method WindowDidEndLiveResize()
      modifies this
      ensures impl == old(impl)
      ensures old(impl).Some? ==> calls == old(calls) + [OnEndResizing]
      ensures old(impl).None? ==> calls == old(calls)
    {
      Forward(OnEndResizing);
    }

    /** windowDidMiniaturize: nothing is forwarded. */
    method WindowDidMiniaturize()
      ensures impl == old(impl) && calls == old(calls)
    {
    }

    /** windowWillEnterFullScreen: a full-screen change starts like a live resize. */
    method WindowWillEnterFullScreen()
      modifies this
      ensures impl == old(impl)
      ensures old(impl).Some? ==> calls == old(calls) + [OnStartResizing]
      ensures old(impl).None? ==> calls == old(calls)
    {
      Forward(OnStartResizing);
    }

    /** windowDidEnterFullScreen */
    method WindowDidEnterFullScreen()
      modifies this
      ensures impl == old(impl)
      ensures old(impl).Some? ==> calls == old(calls) + [OnEndResizing]
      ensures old(impl).None? ==> calls == old(calls)
    {
      Forward(OnEndResizing);
    }

    /** windowWillExitFullScreen */
    method WindowWillExitFullScreen()
      modifies this
      ensures impl == old(impl)
      ensures old(impl).Some? ==> calls == old(calls) + [OnStartResizing]
      ensures old(impl).None? ==> calls == old(calls)
    {
      Forward(OnStartResizing);
    }

    /** windowDidExitFullScreen: ends like a live resize, so the surface is rebuilt. */
    method WindowDidExitFullScreen()
      modifies this
      ensures impl == old(impl)
      ensures old(impl).Some? ==> calls == old(calls) + [OnEndResizing]
      ensures old(impl).None? ==> calls == old(calls)
    {
      Forward(OnEndResizing);
    }
  }

  /**
   * A round trip into and out of full screen brackets each change with a
   * start and an end of resizing, and a close request is only queued.
   */
  method FullScreenRoundTrip(impl: nat, contentSize: Size, frameSize: Size)
    returns (calls: seq<ImplCall>, shouldClose: bool, accepted: Size)
    ensures calls == [OnStartResizing, OnEndResizing, OnResizing(contentSize),
                      OnStartResizing, OnEndResizing, QueueEvent(Event(CloseDisplay, None, 0))]
    ensures !shouldClose && accepted == frameSize
  {
    var d := new WindowDelegate(Some(impl));
    d.WindowWillEnterFullScreen();
    d.WindowDidEnterFullScreen();
    accepted := d.WindowWillResize(contentSize, frameSize);
    d.WindowWillExitFullScreen();
    d.WindowDidExitFullScreen();
    shouldClose := d.WindowShouldClose();
    calls := d.calls;
  }

  /** After removeImpl every notification is dropped. */
  method RemovedImplHearsNothing(impl: nat, contentSize: Size, frameSize: Size) returns (calls: seq<ImplCall>, shouldClose: bool)
    ensures calls == [] && !shouldClose
  {
    var d := new WindowDelegate(Some(impl));
    d.RemoveImpl();
    shouldClose := d.WindowShouldClose();
    d.WindowWillClose();
    d.WindowWillStartLiveResize();
    var _ := d.WindowWillResize(contentSize, frameSize);
    d.WindowDidEndLiveResize();
    d.WindowDidMiniaturize();
    d.WindowWillEnterFullScreen();
    d.WindowDidExitFullScreen();
    calls := d.calls;
  }
}
