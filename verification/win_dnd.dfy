/**
 * os/win/dnd.cpp: the OLE drop target that forwards Windows drag-and-drop
 * to a window's DragTarget.
 *
 * The DROPEFFECT values are those of the Windows SDK (oleidl.h).  The
 * window is reduced to what the adapter asks of it: whether it has a drag
 * target, and the drop result that target sets for an event (none when it
 * leaves the default); the notifications it receives are the `notified`
 * list.  `ScreenToClient` is not part of this model: the client position
 * of the mouse is an input.  An IDataObject is named by a number, null
 * being `None`.
 */
module WinDnd {
  import opened Geometry
  import opened Wrappers
  import opened Dnd

  const DropEffectNone: bv32 := 0
  const DropEffectCopy: bv32 := 1
  const DropEffectMove: bv32 := 2
  const DropEffectLink: bv32 := 4
  const DropEffectScroll: bv32 := 0x8000_0000

  /** as_dropeffect: each of the Copy, Move and Link flags sets its DROPEFFECT bit. */
  function AsDropEffect(op: bv32): (e: bv32)
    ensures (e & DropEffectCopy != 0) <==> (op & Copy != 0)
    ensures (e & DropEffectMove != 0) <==> (op & Move != 0)
    ensures (e & DropEffectLink != 0) <==> (op & Link != 0)
    ensures e & !(DropEffectCopy | DropEffectMove | DropEffectLink) == 0
  {
    var e0 := DropEffectNone;
    var e1 := if op & Copy != 0 then e0 | DropEffectCopy else e0;
    var e2 := if op & Move != 0 then e1 | DropEffectMove else e1;
    if op & Link != 0 then e2 | DropEffectLink else e2
  }

  /** as_dropoperation: the inverse mapping; every other DWORD bit is ignored. */
  function AsDropOperation(effect: bv32): (op: bv32)
    ensures (op & Copy != 0) <==> (effect & DropEffectCopy != 0)
    ensures (op & Move != 0) <==> (effect & DropEffectMove != 0)
    ensures (op & Link != 0) <==> (effect & DropEffectLink != 0)
    ensures op & !Any == 0
  {
    var op0: bv32 := 0;
    var op1 := if effect & DropEffectCopy != 0 then op0 | Copy else op0;
    var op2 := if effect & DropEffectMove != 0 then op1 | Move else op1;
    if effect & DropEffectLink != 0 then op2 | Link else op2
  }

  /** Every combination of Copy, Move and Link comes back unchanged from a DROPEFFECT. */
  lemma DropEffectRoundTrip(op: bv32)
    requires op & !Any == 0
    ensures AsDropOperation(AsDropEffect(op)) == op
  {
  }

  /** A DROPEFFECT comes back from a DropOperation with only its Copy, Move and Link bits. */
  lemma DropOperationRoundTrip(effect: bv32)
    ensures AsDropEffect(AsDropOperation(effect)) == effect & (DropEffectCopy | DropEffectMove | DropEffectLink)
  {
  }

  /** The HRESULT values the adapter returns. */
  datatype HResult = S_OK | E_NOTIMPL | E_UNEXPECTED | E_INVALIDARG | E_NOINTERFACE

  /** The interfaces a caller may ask for. */
  datatype Iid = IidIDropTarget | IidIUnknown | IidOther(id: nat)

  /** Which window callback a notification went to. */
  datatype NotifyKind = NotifyDragEnter | NotifyDrag | NotifyDragLeave | NotifyDrop

  /** A DragEvent as the window received it: the callback, the operations offered, and the position. */
  datatype Notification = Notification(kind: NotifyKind, supported: bv32, position: Point)

  /** DragTargetAdapter: the COM object registered for a window. */
  class DragTargetAdapter {
    const window: nat
    const hasDragTarget: bool
    var data: Option<nat>
    var position: Point
    var ref: int
    var deleted: bool
    var notified: seq<Notification>

    constructor (window: nat, hasDragTarget: bool)
      ensures this.window == window && this.hasDragTarget == hasDragTarget
      ensures data.None? && ref == 0 && !deleted && notified == []
    {
      this.window := window;
      this.hasDragTarget := hasDragTarget;
      data := None;
      position := Point(0, 0);
      ref := 0;
      deleted := false;
      notified := [];
    }

    /**
     * Builds the DragEvent for the window, lets the target set its drop
     * result, records the notification, and gives back the result as a
     * DROPEFFECT.
     */
    method Notify(kind: NotifyKind, supported: bv32, decide: Notification -> Option<bv32>) returns (effect: bv32)
      modifies this
      ensures notified == old(notified) + [Notification(kind, supported, position)]
      ensures effect == AsDropEffect(if decide(Notification(kind, supported, position)).Some?
                                     then decide(Notification(kind, supported, position)).value else Copy)
      ensures data == old(data) && position == old(position) && ref == old(ref) && deleted == old(deleted)
    {
      var ev := new DragEvent(window, supported, position, 0);
      var n := Notification(kind, supported, position);
      var choice := decide(n);
      if choice.Some? {
        ev.SetDropResult(choice.value);
      }
      notified := notified + [n];
      effect := AsDropEffect(ev.dropResult);
    }

    /** DragEnter: keeps the data object (even a null one), then notifies the window. */
    method DragEnter(dataObj: Option<nat>, clientPt: Point, effect: bv32, decide: Notification -> Option<bv32>)
      returns (hr: HResult, effect': bv32)
      modifies this
      ensures !hasDragTarget ==> hr == E_NOTIMPL && effect' == effect && unchanged(this)
      ensures hasDragTarget && dataObj.None? ==>
                hr == E_UNEXPECTED && effect' == effect && data.None? && notified == old(notified) && position == old(position)
      ensures hasDragTarget && dataObj.Some? ==>
                hr == S_OK && data == dataObj && position == clientPt &&
                notified == old(notified) + [Notification(NotifyDragEnter, AsDropOperation(effect), clientPt)] &&
                effect' == AsDropEffect(Chosen(decide, Notification(NotifyDragEnter, AsDropOperation(effect), clientPt)))
      ensures ref == old(ref) && deleted == old(deleted)
    {
      if !hasDragTarget {
        return E_NOTIMPL, effect;
      }
      data := dataObj;
      if data.None? {
        return E_UNEXPECTED, effect;
      }
      position := clientPt;
      effect' := Notify(NotifyDragEnter, AsDropOperation(effect), decide);
      hr := S_OK;
    }

    /** DragOver: notifies the window of the drag at the new position. */
    method DragOver(clientPt: Point, effect: bv32, decide: Notification -> Option<bv32>) returns (hr: HResult, effect': bv32)
      modifies this
      ensures !hasDragTarget ==> hr == E_NOTIMPL && effect' == effect && unchanged(this)
      ensures hasDragTarget ==>
                hr == S_OK && position == clientPt && data == old(data) &&
                notified == old(notified) + [Notification(NotifyDrag, AsDropOperation(effect), clientPt)] &&
                effect' == AsDropEffect(Chosen(decide, Notification(NotifyDrag, AsDropOperation(effect), clientPt)))
      ensures ref == old(ref) && deleted == old(deleted)
    {
      if !hasDragTarget {
        return E_NOTIMPL, effect;
      }
      position := clientPt;
      effect' := Notify(NotifyDrag, AsDropOperation(effect), decide);
      hr := S_OK;
    }

    /** DragLeave: notifies the window with no operation at the last position, then releases the data object. */
    method DragLeave(decide: Notification -> Option<bv32>) returns (hr: HResult)
      modifies this
      ensures !hasDragTarget ==> hr == E_NOTIMPL && unchanged(this)
      ensures hasDragTarget ==>
                hr == S_OK && data.None? && position == old(position) &&
                notified == old(notified) + [Notification(NotifyDragLeave, Dnd.None, old(position))]
      ensures ref == old(ref) && deleted == old(deleted)
    {
      if !hasDragTarget {
        return E_NOTIMPL;
      }
      var _ := Notify(NotifyDragLeave, Dnd.None, decide);
      data := Option.None;
      hr := S_OK;
    }

    /** Drop: like DragEnter, but the data object is let go once the window has been told. */
    method Drop(dataObj: Option<nat>, clientPt: Point, effect: bv32, decide: Notification -> Option<bv32>)
      returns (hr: HResult, effect': bv32)
      modifies this
      ensures !hasDragTarget ==> hr == E_NOTIMPL && effect' == effect && unchanged(this)
      ensures hasDragTarget && dataObj.None? ==>
                hr == E_UNEXPECTED && effect' == effect && data.None? && notified == old(notified) && position == old(position)
      ensures hasDragTarget && dataObj.Some? ==>
                hr == S_OK && data.None? && position == clientPt &&
                notified == old(notified) + [Notification(NotifyDrop, AsDropOperation(effect), clientPt)] &&
                effect' == AsDropEffect(Chosen(decide, Notification(NotifyDrop, AsDropOperation(effect), clientPt)))
      ensures ref == old(ref) && deleted == old(deleted)
    {
      if !hasDragTarget {
        return E_NOTIMPL, effect;
      }
      data := dataObj;
      if data.None? {
        return E_UNEXPECTED, effect;
      }
      position := clientPt;
      effect' := Notify(NotifyDrop, AsDropOperation(effect), decide);
      data := Option.None;
      hr := S_OK;
    }

    /** AddRef: one more reference; the new count is returned. */
    method AddRef() returns (count: int)
      modifies this
      ensures ref == old(ref) + 1 && count == ref
      ensures data == old(data) && position == old(position) && deleted == old(deleted) && notified == old(notified)
    {
      ref := ref + 1;
      count := ref;
    }

    /** Release: one reference less; the object deletes itself when none is left. */
    method Release() returns (count: int)
      modifies this
      ensures ref == old(ref) - 1 && count == ref
      ensures deleted <==> old(deleted) || ref == 0
      ensures data == old(data) && position == old(position) && notified == old(notified)
    {
      ref := ref - 1;
      if ref == 0 {
        deleted := true;
      }
      count := ref;
    }

    /**
     * QueryInterface: a null out-pointer is refused; only IDropTarget and
     * IUnknown are handed out, and handing one out adds a reference.
     * `ppv` is whether the out-pointer is non-null, and `got` what is
     * written through it.
     */
    method QueryInterface(riid: Iid, ppv: bool) returns (hr: HResult, got: bool)
      modifies this
      ensures !ppv ==> hr == E_INVALIDARG && !got && unchanged(this)
      ensures ppv && riid.IidOther? ==> hr == E_NOINTERFACE && !got && unchanged(this)
      ensures ppv && !riid.IidOther? ==> hr == S_OK && got && ref == old(ref) + 1
      ensures data == old(data) && position == old(position) && deleted == old(deleted) && notified == old(notified)
    {
      if !ppv {
        return E_INVALIDARG, false;
      }
      got := false;
      if riid.IidOther? {
        return E_NOINTERFACE, got;
      }
      got := true;
      var _ := AddRef();
      hr := S_OK;
    }
  }

  /** The drop result the event ends with: the one the target set, else the default Copy. */
  function Chosen(decide: Notification -> Option<bv32>, n: Notification): (op: bv32)
    ensures decide(n).None? ==> op == Copy
    ensures decide(n).Some? ==> op == decide(n).value
  {
    if decide(n).Some? then decide(n).value else Copy
  }

  /** A target that never sets a drop result makes the adapter report DROPEFFECT_COPY. */
  lemma DefaultResultIsCopy(decide: Notification -> Option<bv32>, n: Notification)
    requires decide(n).None?
    ensures AsDropEffect(Chosen(decide, n)) == DropEffectCopy
  {
  }
}
