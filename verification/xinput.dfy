/**
 * os/x11/xinput.h: the XInput extension as the X11 backend uses it for
 * pens and erasers.
 *
 * The X server is reduced to what `load` reads from it: whether the
 * extension is there, the device list (absent when XListInputDevices
 * fails), and for each device id what XOpenDevice gives back, together
 * with the event types and classes the DeviceButtonPress,
 * DeviceButtonRelease and DeviceMotionNotify macros compute for it.
 * Pressure values stay integers; their normalisation to a float is not
 * part of this model.
 */
module XInput {
  import opened Wrappers
  import opened Geometry
  import opened Events

  /** os::PointerType values that `load` assigns. */
  datatype PointerType = Pen | Eraser

  /** One input class of an XDeviceInfo: a valuator with its axis count and pressure range (axis 2), or another class. */
  datatype InputClass = Valuator(numAxes: nat, minPressure: int, maxPressure: int) | OtherClass

  /** XDeviceInfo: its id, its name (which may be null) and its input classes. */
  datatype DeviceInfo = DeviceInfo(id: nat, name: Option<string>, classes: seq<InputClass>)

  /** An XInput event type and the event class selecting it. */
  datatype NativeEvent = NativeEvent(eventType: int, eventClass: nat)

  /** An opened XDevice: its id and the three event registrations computed for it. */
  datatype Device = Device(deviceId: nat, press: NativeEvent, release: NativeEvent, motion: NativeEvent)

  /** XInput::Info */
  datatype Info = Info(pointerType: PointerType, minPressure: int, maxPressure: int)

  /** All the state of an XInput object. */
  datatype Snapshot = Snapshot(openDevices: seq<Device>, info: map<nat, Info>, eventClasses: seq<nat>, eventTypes: seq<EventType>)

  /** strstr(s, sub) != nullptr */
  predicate HasSubstring(s: string, sub: string)
  {
    |sub| <= |s| && (s[..|sub|] == sub || HasSubstring(s[1..], sub))
  }

  /** The pointer type a device name gives: "stylus" is checked first, then "eraser". */
  function PointerTypeOf(name: string): (pt: Option<PointerType>)
    ensures pt == Some(Pen) <==> HasSubstring(name, "stylus")
    ensures pt == Some(Eraser) <==> !HasSubstring(name, "stylus") && HasSubstring(name, "eraser")
  {
    if HasSubstring(name, "stylus") then Some(Pen)
    else if HasSubstring(name, "eraser") then Some(Eraser)
    else None
  }

  /**
   * addEvent on the two tables: nothing for a zero type or class; else
   * the class is appended, and a type below 256 gets its slot in the
   * table, which grows with None entries when it is too short.
   */
  function AddEventTo(classes: seq<nat>, types: seq<EventType>, eventType: int, eventClass: nat, ours: EventType)
    : (r: (seq<nat>, seq<EventType>))
    ensures eventType == 0 || eventClass == 0 ==> r == (classes, types)
    ensures eventType != 0 && eventClass != 0 ==> r.0 == classes + [eventClass]
    ensures eventType < 0 || eventType >= 256 ==> r.1 == types
    ensures 0 < eventType < 256 && eventClass != 0 ==>
              |r.1| == Max(|types|, eventType + 1) && r.1[eventType] == ours &&
              forall i :: 0 <= i < |r.1| && i != eventType ==> r.1[i] == (if i < |types| then types[i] else NoneEvent)
  {
    if eventType == 0 || eventClass == 0 then (classes, types)
    else if eventType < 0 || eventType >= 256 then (classes + [eventClass], types)
    else
      var grown := if eventType >= |types| then types + seq(eventType + 1 - |types|, _ => NoneEvent) else types;
      (classes + [eventClass], grown[eventType := ours])
  }

  /** handleExtensionEvent on a table of event types. */
  predicate Handles(types: seq<EventType>, eventType: int)
  {
    0 <= eventType < |types| && types[eventType] != NoneEvent
  }

  /** After addEvent, its type is handled exactly when it was given a real event type; no other type changes. */
  lemma AddEventHandles(classes: seq<nat>, types: seq<EventType>, eventType: int, eventClass: nat, ours: EventType, t: int)
    requires 0 < eventType < 256 && eventClass != 0
    ensures var r := AddEventTo(classes, types, eventType, eventClass, ours);
            (Handles(r.1, eventType) <==> ours != NoneEvent) &&
            (t != eventType ==> (Handles(r.1, t) <==> Handles(types, t)))
  {
    var r := AddEventTo(classes, types, eventType, eventClass, ours);
    if t != eventType && 0 <= t < |r.1| {
      assert r.1[t] == (if t < |types| then types[t] else NoneEvent);
    }
  }

  /** One valuator class of a device being loaded: registered when it has three axes and the device opens. */
  function LoadClass(st: Snapshot, d: DeviceInfo, pt: PointerType, c: InputClass, open: nat -> Option<Device>): Snapshot
  {
    if !c.Valuator? || c.numAxes < 3 || open(d.id).None? then st
    else
      var dev := open(d.id).value;
      var t1 := AddEventTo(st.eventClasses, st.eventTypes, dev.press.eventType, dev.press.eventClass, MouseDown);
      var t2 := AddEventTo(t1.0, t1.1, dev.release.eventType, dev.release.eventClass, MouseUp);
      var t3 := AddEventTo(t2.0, t2.1, dev.motion.eventType, dev.motion.eventClass, MouseMove);
      Snapshot(st.openDevices + [dev], st.info[dev.deviceId := Info(pt, c.minPressure, c.maxPressure)], t3.0, t3.1)
  }

  /** The classes of one device, in order. */
  function LoadClasses(st: Snapshot, d: DeviceInfo, pt: PointerType, cs: seq<InputClass>, open: nat -> Option<Device>): Snapshot
  {
    if cs == [] then st else LoadClass(LoadClasses(st, d, pt, cs[..|cs| - 1], open), d, pt, cs[|cs| - 1], open)
  }

  /** One device: only named pens and erasers are looked at. */
  function LoadDevice(st: Snapshot, d: DeviceInfo, open: nat -> Option<Device>): Snapshot
  {
    if d.name.None? || PointerTypeOf(d.name.value).None? then st
    else LoadClasses(st, d, PointerTypeOf(d.name.value).value, d.classes, open)
  }

  /** The device list, in order. */
  function LoadDevices(st: Snapshot, ds: seq<DeviceInfo>, open: nat -> Option<Device>): Snapshot
  {
    if ds == [] then st else LoadDevice(LoadDevices(st, ds[..|ds| - 1], open), ds[|ds| - 1], open)
  }

  /** A device `load` opens: one whose name makes it a pen or an eraser, through a valuator class of three axes or more. */
  predicate OpenedFrom(dev: Device, ds: seq<DeviceInfo>, open: nat -> Option<Device>)
  {
    exists k, j :: 0 <= k < |ds| && 0 <= j < |ds[k].classes| &&
      ds[k].name.Some? && PointerTypeOf(ds[k].name.value).Some? &&
      ds[k].classes[j].Valuator? && ds[k].classes[j].numAxes >= 3 && open(ds[k].id) == Some(dev)
  }

  /** Loading one device's classes only appends devices that qualify through one of them. */
  lemma {:induction false} LoadClassesOpens(st: Snapshot, d: DeviceInfo, pt: PointerType, cs: seq<InputClass>, open: nat -> Option<Device>)
    ensures var r := LoadClasses(st, d, pt, cs, open);
            |st.openDevices| <= |r.openDevices| && r.openDevices[..|st.openDevices|] == st.openDevices &&
            forall n :: |st.openDevices| <= n < |r.openDevices| ==>
              exists j :: 0 <= j < |cs| && cs[j].Valuator? && cs[j].numAxes >= 3 && open(d.id) == Some(r.openDevices[n])
  {
    if cs != [] {
      var front := cs[..|cs| - 1];
      LoadClassesOpens(st, d, pt, front, open);
      var mid := LoadClasses(st, d, pt, front, open);
      var r := LoadClasses(st, d, pt, cs, open);
      assert r == LoadClass(mid, d, pt, cs[|cs| - 1], open);
      forall n | |st.openDevices| <= n < |r.openDevices|
        ensures exists j :: 0 <= j < |cs| && cs[j].Valuator? && cs[j].numAxes >= 3 && open(d.id) == Some(r.openDevices[n])
      {
        if n < |mid.openDevices| {
          assert r.openDevices[n] == mid.openDevices[n];
          var j :| 0 <= j < |front| && front[j].Valuator? && front[j].numAxes >= 3 && open(d.id) == Some(mid.openDevices[n]);
          assert cs[j] == front[j];
        } else {
          assert cs[|cs| - 1].Valuator? && cs[|cs| - 1].numAxes >= 3;
        }
      }
    }
  }

  /** Every device `load` opens is a pen or an eraser with a pressure axis; those opened before stay in place. */
  lemma {:induction false} LoadOpensOnlyPens(st: Snapshot, ds: seq<DeviceInfo>, open: nat -> Option<Device>)
    ensures var r := LoadDevices(st, ds, open);
            |st.openDevices| <= |r.openDevices| && r.openDevices[..|st.openDevices|] == st.openDevices &&
            forall n :: |st.openDevices| <= n < |r.openDevices| ==> OpenedFrom(r.openDevices[n], ds, open)
  {
    if ds != [] {
      var front := ds[..|ds| - 1];
      var d := ds[|ds| - 1];
      LoadOpensOnlyPens(st, front, open);
      var mid := LoadDevices(st, front, open);
      var r := LoadDevices(st, ds, open);
      assert r == LoadDevice(mid, d, open);
      if d.name.Some? && PointerTypeOf(d.name.value).Some? {
        LoadClassesOpens(mid, d, PointerTypeOf(d.name.value).value, d.classes, open);
      }
      forall n | |st.openDevices| <= n < |r.openDevices|
        ensures OpenedFrom(r.openDevices[n], ds, open)
      {
        if n < |mid.openDevices| {
          assert r.openDevices[n] == mid.openDevices[n];
          var k, j :| 0 <= k < |front| && 0 <= j < |front[k].classes| &&
            front[k].name.Some? && PointerTypeOf(front[k].name.value).Some? &&
            front[k].classes[j].Valuator? && front[k].classes[j].numAxes >= 3 && open(front[k].id) == Some(mid.openDevices[n]);
          assert ds[k] == front[k];
        } else {
          var j :| 0 <= j < |d.classes| && d.classes[j].Valuator? && d.classes[j].numAxes >= 3 && open(d.id) == Some(r.openDevices[n]);
          assert ds[|ds| - 1] == d;
        }
      }
    }
  }

  /** The position of a device event: the device coordinates divided by the window scale, as C int division does. */
  function ScalePosition(x: int, y: int, scale: int): (p: Point)
    requires scale > 0
    ensures x >= 0 ==> p.x * scale <= x < (p.x + 1) * scale
    ensures y >= 0 ==> p.y * scale <= y < (p.y + 1) * scale
    ensures scale == 1 ==> p == Point(x, y)
  {
    Point(TruncDiv(x, scale), TruncDiv(y, scale))
  }

  /** A device button or motion event as convertExtensionEvent reads it. */
  datatype DeviceEvent = DeviceEvent(eventType: int, deviceId: nat, x: int, y: int, button: nat)

  /** What convertExtensionEvent sets: the type, the position, the button of a press or release, and the pointer type when the device is known. */
  datatype Converted = Converted(kind: EventType, position: Point, button: Option<nat>, pointerType: Option<PointerType>)

  /** XInput */
  class XInputState {
    var openDevices: seq<Device>
    var info: map<nat, Info>
    var eventClasses: seq<nat>
    var eventTypes: seq<EventType>

    constructor ()
      ensures Current() == Snapshot([], map[], [], [])
    {
      openDevices := [];
      info := map[];
      eventClasses := [];
      eventTypes := [];
    }

    function Current(): Snapshot
      reads this
    {
      Snapshot(openDevices, info, eventClasses, eventTypes)
    }

    /** addEvent */
    method AddEvent(eventType: int, eventClass: nat, ours: EventType)
      modifies this
      ensures (eventClasses, eventTypes) == AddEventTo(old(eventClasses), old(eventTypes), eventType, eventClass, ours)
      ensures openDevices == old(openDevices) && info == old(info)
    {
      if eventType == 0 || eventClass == 0 {
        return;
      }
      eventClasses := eventClasses + [eventClass];
      if 0 <= eventType < 256 {
        if eventType >= |eventTypes| {
          eventTypes := eventTypes + seq(eventType + 1 - |eventTypes|, _ => NoneEvent);
        }
        eventTypes := eventTypes[eventType := ours];
      }
    }

    /** handleExtensionEvent */
    predicate HandleExtensionEvent(eventType: int)
      reads this
    {
      Handles(eventTypes, eventType)
    }

    /**
     * load.  Nothing happens without the extension or without a device
     * list; otherwise every device is visited in order.
     */
    method Load(hasExtension: bool, devices: Option<seq<DeviceInfo>>, open: nat -> Option<Device>)
      modifies this
      ensures !hasExtension || devices.None? ==> Current() == old(Current())
      ensures hasExtension && devices.Some? ==> Current() == LoadDevices(old(Current()), devices.value, open)
    {
      if !hasExtension || devices.None? {
        return;
      }
      var ds := devices.value;
      ghost var st0 := Current();
      var i := 0;
      while i < |ds|
        invariant 0 <= i <= |ds|
        invariant Current() == LoadDevices(st0, ds[..i], open)
      {
        var d := ds[i];
        assert ds[..i + 1][..i] == ds[..i];
        if d.name.Some? && PointerTypeOf(d.name.value).Some? {
          LoadDeviceClasses(d, PointerTypeOf(d.name.value).value, open);
        }
        i := i + 1;
      }
      assert ds[..|ds|] == ds;
    }

    /** unload: every opened device is closed and forgotten; the tables and the pressure ranges stay. */
    method Unload() returns (closed: seq<Device>)
      modifies this
      ensures closed == old(openDevices) && openDevices == []
      ensures info == old(info) && eventClasses == old(eventClasses) && eventTypes == old(eventTypes)
    {
      closed := openDevices;
      openDevices := [];
    }

    /** The inner loop of load: the input classes of one pen or eraser. */
    method LoadDeviceClasses(d: DeviceInfo, pt: PointerType, open: nat -> Option<Device>)
      modifies this
      ensures Current() == LoadClasses(old(Current()), d, pt, d.classes, open)
    {
      ghost var st0 := Current();
      var j := 0;
      while j < |d.classes|
        invariant 0 <= j <= |d.classes|
        invariant Current() == LoadClasses(st0, d, pt, d.classes[..j], open)
      {
        var c := d.classes[j];
        assert d.classes[..j + 1][..j] == d.classes[..j];
        if c.Valuator? && c.numAxes >= 3 {
          var dev := open(d.id);
          if dev.Some? {
            AddEvent(dev.value.press.eventType, dev.value.press.eventClass, MouseDown);
            AddEvent(dev.value.release.eventType, dev.value.release.eventClass, MouseUp);
            AddEvent(dev.value.motion.eventType, dev.value.motion.eventClass, MouseMove);
            info := info[dev.value.deviceId := Info(pt, c.minPressure, c.maxPressure)];
            openDevices := openDevices + [dev.value];
          }
        }
        j := j + 1;
      }
      assert d.classes[..|d.classes|] == d.classes;
    }

    /**
     * convertExtensionEvent, for an event that handleExtensionEvent
     * accepted: the type comes from the table, the position is scaled
     * down, a press or release carries its button, and a known device
     * gives its pointer type.
     */
    function ConvertExtensionEvent(xe: DeviceEvent, scale: int): (c: Converted)
      reads this
      requires HandleExtensionEvent(xe.eventType) && scale > 0
      ensures c.kind == eventTypes[xe.eventType]
      ensures c.position == ScalePosition(xe.x, xe.y, scale)
      ensures c.button.Some? <==> c.kind == MouseDown || c.kind == MouseUp
      ensures c.pointerType.Some? <==> xe.deviceId in info
      ensures xe.deviceId in info ==> c.pointerType == Some(info[xe.deviceId].pointerType)
    {
      var kind := eventTypes[xe.eventType];
      Converted(kind, ScalePosition(xe.x, xe.y, scale),
                if kind == MouseDown || kind == MouseUp then Some(xe.button) else None,
                if xe.deviceId in info then Some(info[xe.deviceId].pointerType) else None)
    }
  }

  /** A type registered with a real event on a fresh XInput is handled, and its class is selected once. */
  method RegisterAndHandle(eventType: int, eventClass: nat, ours: EventType) returns (handled: bool, classes: seq<nat>)
    requires 0 < eventType < 256 && eventClass != 0
    ensures handled <==> ours != NoneEvent
    ensures classes == [eventClass]
  {
    var x := new XInputState();
    x.AddEvent(eventType, eventClass, ours);
    handled := x.HandleExtensionEvent(eventType);
    classes := x.eventClasses;
  }
}
