/**
 * os/osx/dnd.h: the macOS side of drag and drop.
 *
 * NSDragOperation is an NSUInteger, a 64-bit vector here, with the values
 * of AppKit's NSDragging.h.  The pasteboard is reduced to its list of
 * types and the file names it holds; `normalize` stands for
 * base::normalize_path, which is not part of this model.
 */
module OsxDnd {
  import opened Geometry
  import Dnd

  const NSDragOperationNone: bv64 := 0
  const NSDragOperationCopy: bv64 := 1
  const NSDragOperationLink: bv64 := 2
  const NSDragOperationGeneric: bv64 := 4
  const NSDragOperationPrivate: bv64 := 8
  const NSDragOperationMove: bv64 := 16
  const NSDragOperationDelete: bv64 := 32

  /**
   * as_nsdragoperation as written: `nsdop` is never initialised, so the
   * bits it starts with are whatever `garbage` holds.  All that can be
   * promised is that each flag present sets its bit.
   */
  function AsNsDragOperationAsWritten(op: bv32, garbage: bv64): (ns: bv64)
    ensures op & Dnd.Copy != 0 ==> ns & NSDragOperationCopy != 0
    ensures op & Dnd.Move != 0 ==> ns & NSDragOperationMove != 0
    ensures op & Dnd.Link != 0 ==> ns & NSDragOperationLink != 0
  {
    var n1 := if op & Dnd.Copy != 0 then garbage | NSDragOperationCopy else garbage;
    var n2 := if op & Dnd.Move != 0 then n1 | NSDragOperationMove else n1;
    if op & Dnd.Link != 0 then n2 | NSDragOperationLink else n2
  }

  /** as_nsdragoperation with `nsdop` starting from NSDragOperationNone: exactly the bits of the flags present. */
  function AsNsDragOperation(op: bv32): (ns: bv64)
    ensures (ns & NSDragOperationCopy != 0) <==> (op & Dnd.Copy != 0)
    ensures (ns & NSDragOperationMove != 0) <==> (op & Dnd.Move != 0)
    ensures (ns & NSDragOperationLink != 0) <==> (op & Dnd.Link != 0)
    ensures ns & !(NSDragOperationCopy | NSDragOperationMove | NSDragOperationLink) == 0
  {
    AsNsDragOperationAsWritten(op, NSDragOperationNone)
  }

  /** as_dropoperation: the Copy, Move and Link bits map back; Generic, Private, Delete and the rest are dropped. */
  function AsDropOperation(ns: bv64): (op: bv32)
    ensures (op & Dnd.Copy != 0) <==> (ns & NSDragOperationCopy != 0)
    ensures (op & Dnd.Move != 0) <==> (ns & NSDragOperationMove != 0)
    ensures (op & Dnd.Link != 0) <==> (ns & NSDragOperationLink != 0)
    ensures op & !Dnd.Any == 0
  {
    var op0: bv32 := 0;
    var op1 := if ns & NSDragOperationCopy != 0 then op0 | Dnd.Copy else op0;
    var op2 := if ns & NSDragOperationMove != 0 then op1 | Dnd.Move else op1;
    if ns & NSDragOperationLink != 0 then op2 | Dnd.Link else op2
  }

  /** With `nsdop` initialised, every combination of Copy, Move and Link survives the trip through AppKit. */
  lemma NsDragOperationRoundTrip(op: bv32)
    requires op & !Dnd.Any == 0
    ensures AsDropOperation(AsNsDragOperation(op)) == op
  {
  }

  /**
   * As written, the round trip can fail: a Copy-only result whose
   * uninitialised `nsdop` happens to hold the Move bit comes back as
   * Copy | Move.
   */
  lemma AsWrittenRoundTripFails()
    ensures AsDropOperation(AsNsDragOperationAsWritten(Dnd.Copy, NSDragOperationMove)) == Dnd.Copy | Dnd.Move
    ensures AsDropOperation(AsNsDragOperationAsWritten(Dnd.Copy, NSDragOperationMove)) != Dnd.Copy
  {
  }

  /** The pasteboard types the provider looks at; any other type is `OtherType`. */
  datatype PboardType = Filenames | Tiff | Png | OtherType(id: nat)

  /** Whether one pasteboard type answers a request for an item type. */
  predicate Answers(item: Dnd.DragDataItemType, t: PboardType)
  {
    match item
    case Paths => t == Filenames
    case Image => t == Tiff || t == Png
  }

  /** DragDataProviderOSX::contains: scans the pasteboard's types for one that answers the request. */
  method Contains(types: seq<PboardType>, item: Dnd.DragDataItemType) returns (r: bool)
    ensures r <==> exists i :: 0 <= i < |types| && Answers(item, types[i])
  {
    var i := 0;
    while i < |types|
      invariant 0 <= i <= |types|
      invariant forall j :: 0 <= j < i ==> !Answers(item, types[j])
    {
      if item == Dnd.Paths && types[i] == Filenames {
        return true;
      }
      if item == Dnd.Image && (types[i] == Tiff || types[i] == Png) {
        return true;
      }
      i := i + 1;
    }
    return false;
  }

  /** Paths are there iff the file-names type is; an image is there iff TIFF or PNG is. */
  lemma ContainsByType(types: seq<PboardType>)
    ensures (exists i :: 0 <= i < |types| && Answers(Dnd.Paths, types[i])) <==> Filenames in types
    ensures (exists i :: 0 <= i < |types| && Answers(Dnd.Image, types[i])) <==> Tiff in types || Png in types
  {
    if Filenames in types {
      var i :| 0 <= i < |types| && types[i] == Filenames;
      assert Answers(Dnd.Paths, types[i]);
    }
    if Tiff in types {
      var i :| 0 <= i < |types| && types[i] == Tiff;
      assert Answers(Dnd.Image, types[i]);
    }
    if Png in types {
      var i :| 0 <= i < |types| && types[i] == Png;
      assert Answers(Dnd.Image, types[i]);
    }
  }

  /**
   * DragDataProviderOSX::getPaths: nothing unless the file-names type is
   * on the pasteboard, else one normalised path per file name, in order.
   */
  method GetPaths(types: seq<PboardType>, filenames: seq<string>, normalize: string -> string)
    returns (files: seq<string>)
    ensures Filenames !in types ==> files == []
    ensures Filenames in types ==> |files| == |filenames|
    ensures Filenames in types ==> forall i :: 0 <= i < |filenames| ==> files[i] == normalize(filenames[i])
  {
    files := [];
    if Filenames in types {
      var i := 0;
      while i < |filenames|
        invariant 0 <= i <= |filenames|
        invariant |files| == i
        invariant forall j :: 0 <= j < i ==> files[j] == normalize(filenames[j])
      {
        files := files + [normalize(filenames[i])];
        i := i + 1;
      }
    }
  }

  /**
   * drag_position: AppKit's y axis points up from the bottom of the
   * content area, the library's points down from the top, so x is kept
   * and y is flipped against the content height.
   */
  function DragPosition(location: Point, contentHeight: int): (p: Point)
    ensures p.x == location.x
    ensures p.y + location.y == contentHeight
  {
    Point(location.x, contentHeight - location.y)
  }

  /** Flipping twice against the same height gives the point back. */
  lemma DragPositionInvolution(location: Point, contentHeight: int)
    ensures DragPosition(DragPosition(location, contentHeight), contentHeight) == location
  {
  }
}
