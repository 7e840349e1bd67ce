/**
 * os::Event as the rest of the model sees it (os/event.h is not part of
 * this model): an event type, the window it refers to, and everything
 * else folded into one number.  Windows are named by numbers.
 */
module Events {
  import opened Wrappers

  /** The event types the modelled code creates or tests; any other is `OtherEvent`. */
  datatype EventType =
    | NoneEvent
    | CloseDisplay
    | ResizeDisplay
    | ResizeWindow
    | ColorSpaceChange
    | MouseDown
    | MouseUp
    | MouseMove
    | OtherEvent(code: nat)

  datatype Event = Event(kind: EventType, window: Option<nat>, payload: int)

  /** An event of a type, about a window, with nothing else set. */
  function WindowEvent(kind: EventType, window: nat): (ev: Event)
    ensures ev.kind == kind && ev.window == Some(window)
  {
    Event(kind, Some(window), 0)
  }
}
