/**
 * os/dnd.h: the drag-and-drop vocabulary shared by the platforms.
 *
 * `DropOperation` is a set of flags held in an int; it is a 32-bit vector
 * here so that the bitwise tests of the source read as they are written.
 * Windows are named by a number, and so are data providers.
 */
module Dnd {
  import opened Geometry

  /** os::DropOperation values. */
  const None: bv32 := 0
  const Copy: bv32 := 1
  const Move: bv32 := 2
  const Link: bv32 := 4
  const Any: bv32 := 7

  /** os::DragDataItemType */
  datatype DragDataItemType = Paths | Image

  /** Any is Copy | Move | Link. */
  lemma AnyIsAllFlags()
    ensures Any == Copy | Move | Link
    ensures Copy & Move == 0 && Copy & Link == 0 && Move & Link == 0
  {
  }

  /** The default DragDataProvider::contains: no type is there. */
  function DefaultContains(t: DragDataItemType): (r: bool)
    ensures !r
  {
    false
  }

  /** os::DragEvent: what a drag target is told, and the outcome it sets. */
  class DragEvent {
    const target: nat
    const supportedOperations: bv32
    const position: Point
    const dataProvider: nat
    var dropResult: bv32
    var acceptDrop: bool

    /** A fresh event keeps what it is given, proposes Copy and is not accepted. */
    constructor (target: nat, supportedOperations: bv32, position: Point, dataProvider: nat)
      ensures this.target == target && this.supportedOperations == supportedOperations
      ensures this.position == position && this.dataProvider == dataProvider
      ensures dropResult == Copy && !acceptDrop
    {
      this.target := target;
      this.supportedOperations := supportedOperations;
      this.position := position;
      this.dataProvider := dataProvider;
      dropResult := Copy;
      acceptDrop := false;
    }

    /** dropResult(op): stores the value as given; nothing checks that it is a single flag. */
    method SetDropResult(op: bv32)
      modifies this
      ensures dropResult == op && acceptDrop == old(acceptDrop)
    {
      dropResult := op;
    }

    /** acceptDrop(value) */
    method SetAcceptDrop(value: bool)
      modifies this
      ensures acceptDrop == value && dropResult == old(dropResult)
    {
      acceptDrop := value;
    }

    /** sourceSupports(op): every flag of `op` is one the source supports. */
    function SourceSupports(op: bv32): (r: bool)
      ensures r <==> op & !supportedOperations == 0
      ensures op == None ==> r
    {
      supportedOperations & op == op
    }
  }

  /** Setting a drop result and reading it back gives the value set, whatever it is. */
  method DropResultRoundTrip(op: bv32, accept: bool) returns (got: bv32, accepted: bool)
    ensures got == op && accepted == accept
  {
    var ev := new DragEvent(0, Any, Point(0, 0), 0);
    ev.SetDropResult(op);
    ev.SetAcceptDrop(accept);
    got, accepted := ev.dropResult, ev.acceptDrop;
  }
}
