# laf core, modelled in Dafny

This project models the sequential logic of laf, a C++ layer over native
windowing (Windows, macOS, X11), Skia drawing and FreeType/HarfBuzz text.
The model covers:

- **UTF-8 readers** (`base/string.h`): the `utf8_decode` cursor with its
  sticky validity flag, and the older `utf8_iteratorT`. Both read the byte
  layout of section 3 of RFC 3629 and skip that RFC's strictness checks.
- **Most-recently-used list** (`base/recent_items.h`).
- **Sprite-sheet fonts** (`text/sprite_sheet_font.h`): the glyph table cut
  out of a bitmap, glyph lookup in a 16-bit `glyph_t`, and text measurement.
- **Text blobs**:
  - per-glyph byte ranges and boxes of a run (`text/text_blob.cpp`);
  - sprite-sheet layout (`text/sprite_text_blob.cpp`);
  - splicing of fallback-font blobs for the code points a sprite font
    lacks (`text/sprite_text_blob_shaper.cpp`);
  - the shaper dispatch on the font type (`text/text_blob_shaper.cpp`);
  - the older `draw_text` fallback-chain search and sprite loop
    (`text/draw_text.cpp`);
  - HarfBuzz script segmentation and the glyph cursor
    (`ft/hb_shaper.h`).
- **Drag and drop**: the `DropOperation` flags and `DragEvent`
  (`os/dnd.h`); the Windows flag mappings and the `IDropTarget` adapter
  (`os/win/dnd.cpp`); the macOS flag mappings, pasteboard queries and drag
  position (`os/osx/dnd.h`).
- **X11 events**:
  - the event FIFO with its three timeout modes
    (`os/x11/event_queue.cpp`);
  - the XInput event-type table and device filtering
    (`os/x11/xinput.h`).
- **Skia windows**:
  - the surface state machine shared by windows and displays
    (`os/skia/skia_window_base.h`, `os/skia/skia_display.cpp`);
  - the Windows window's resize coalescing, backend choice and
    render-target sizing (`os/skia/skia_window_win.cpp`);
  - the X11 window's event forwarding and scaled paint buffer
    (`os/skia/skia_window_x11.cpp`).
- **macOS window delegate** (`os/osx/window_delegate.h`): how it forwards
  notifications to the window implementation.
- **System**: key-modifier masks, clipboard-image conversion,
  sprite-sheet font loading, and the system instance's lifecycle
  (`os/common/system.h`, `os/common/system.cpp`).
- **Window coordinates** (`os/window.cpp`): conversions between client
  and screen coordinates.

The model has one Dafny module per source file. Two shared modules sit
beside them:

- `Geometry`: integer points, sizes and rectangles, and C++'s
  truncating division.
- `Events`: the event record and the process-wide queue.

Each part of the model takes the form of its source:

- Code that updates objects in place (the decoders, the list, the
  windows, the queues, the XInput tables, the drag adapter) is a class
  whose methods say the whole new state.
- Loops are methods with loop invariants, proved against specification
  functions.
- Pure lookups and bit mappings are functions with lemmas about them.

Everything native is an input to the model:

- Win32, X11, Cocoa, Skia, HarfBuzz and FreeType;
- the pixels of a surface;
- the fallback font's shaper;
- the application's callbacks.

Where a header and its `.cpp` disagree, the model follows the `.cpp`,
which defines the behaviour:

- `os/x11/event_queue.cpp` defines `getEvent(Event&, double)` and
  `clearEvents()`, while the header declares `getEvent(Event&, bool)` and
  `clear()`. The `.cpp` versions are modelled.
- `destroyInstance` in `os/common/system.h` has no guard; the one in
  `os/common/system.cpp` returns early unless the system is the instance.
  The guarded version is modelled. The destructor calls it only for the
  instance anyway, so the two agree there.
- `utf8_decode::pos()` is used by the sprite text blob but not defined in
  `base/string.h`. It is modelled as the number of bytes consumed so far.
- Both UTF-8 readers keep the code point in an `int`. The model takes it
  as 32 bits wide: a `c << 6` that overflows keeps the low 32 bits, read
  as two's complement. That is the wrap the compilers produce, though
  C++ before C++20 leaves it undefined. Only the lead bytes 0xFE and 0xFF
  can overflow, in either reader. 0xFC and 0xFD keep at most one bit of
  their own, so the largest value they give is 0x7FFF_FFFF.
- The bytes of a `std::string` are `char`, which may be signed. Every
  test and mask the readers apply to them looks only at the low eight
  bits, so the model reads them as 0..255.

## Model

| member | source | states |
|---|---|---|
| Utf8.Int32 | base/string.h:252 | a value kept in the source's 32-bit `int` lies in -2^31..2^31-1, differs from the exact value by a multiple of 2^32, and is the exact value when that fits |
| Utf8.LeadingOnes | base/string.h:220-225 | the lead-byte counting loop never counts more bits than lie below its start bit |
| Utf8.Init | base/string.h:193-196 | a new decoder is well formed, at offset 0 of the string, and valid |
| Utf8.Continue | base/string.h:239-253 | the continuation loop folds six bits per byte into a 32-bit `int` (`Shift6`), only moves forward, consumes at least one byte when one is left, gives 0 whenever it clears the flag, never sets the flag, and at the end of the string gives 0 with the flag cleared |
| Utf8.Step | base/string.h:206-257 | `next()`: at the end 0 and no change; an ASCII byte is returned and consumed alone; a lone 10xxxxxx byte gives 0, is consumed, and clears the flag; the cursor never moves back and moves whenever a byte is left; the flag is never set back, and clearing it yields 0 |
| Utf8.Next | base/string.h:206-257 | the method with the source's counting and continuation loops returns exactly what `Step` says, 32-bit wrap included |
| Utf8.ReadContinuation | base/string.h:239-253 | the `while (n--)` loop as a method, shifting within 32 bits, computes exactly `Continue` |
| Utf8.Items | base/string.h:206-257 | the code points a decode loop sees are all non-zero, start inside the string past the cursor, and come in strictly increasing offset order |
| Utf8.StopPos | base/string.h:206-208 | a decode loop stops at or after its start, inside the string, and after every item it received |
| Utf8.ItemsUnfold | base/string.h:206-257 | one `next()` call either ends the loop (0) where it stands or peels exactly the first item off |
| Utf8.ItemsAdvance | base/string.h:206-257 | the bookkeeping of a decode loop over a whole string: one more `next()` moves one item from the rest to the items seen, or ends the loop with all of them seen |
| Utf8.InvalidStaysInvalid | base/string.h:202-204 | `is_valid()` is sticky: once false it stays false after any number of further `next()` calls |
| Utf8.Encode | base/string.h:214-256 | the UTF-8 form of a scalar value, as in section 3 of RFC 3629, is 1 to 4 bytes long |
| Utf8.LeadCounts | base/string.h:220-225 | on a byte from 0x80 up the counting loop gives the number of set bits after the top bit |
| Utf8.StepEncoded | base/string.h:214-256 | round trip: where the encoding of a scalar value stands, `next()` returns that value, moves past exactly its bytes and keeps the flag |
| Utf8.DecodeEncodeAll | base/string.h:206-257 | decoding the encoding of a sequence of non-zero scalar values gives the sequence back |
| Utf8.DecodeEncodeAllValid | base/string.h:202-204 | decoding the encoding of scalar values never clears `is_valid()` |
| Utf8.ContinueTruncated | base/string.h:240-244 | a sequence cut short by the end of the string gives 0, consumes everything and clears the flag |
| Utf8.ContinueBroken | base/string.h:245-251 | a following byte not of the form 10xxxxxx gives 0, clears the flag, and is itself consumed |
| Utf8.OverlongNulAccepted | base/string.h:234-237 | there is no overlong check: C0 80 decodes to 0 with `is_valid()` still true |
| Utf8.LeadFFWantsSeven | base/string.h:220-253 | 0xFF asks for seven continuation bytes and keeps none of its own bits; FF 81 80 80 80 80 80 80 shifts its one set bit past bit 31, so `next()` gives 0 with the flag still set |
| Utf8.LeadFENegative | base/string.h:220-253 | FE 82 80 80 80 80 80 sets bit 31 of the `int`: `next()` returns -2^31 with the flag still set |
| Utf8.LeadFDLargest | base/string.h:220-253 | FD BF BF BF BF BF gives 0x7FFF_FFFF, the largest `int`, in `next()` with the flag still set and in the iterator's `operator*`: 0xFD does not overflow |
| Utf8.LeadFFTruncated | base/string.h:239-244 | 0xFF followed by six continuation bytes runs off the end: 0, flag cleared |
| Utf8.IterSkip | base/string.h:63-73 | the `while (--n > 0)` loop of `operator++` never moves back nor past the terminator |
| Utf8.IterNext | base/string.h:52-77 | `operator++` always moves forward, at most to the terminator |
| Utf8.Utf8Iterator.constructor | base/string.h:47-49 | the iterator starts at the given offset of the string |
| Utf8.Utf8Iterator.Increment | base/string.h:52-77 | the method with the source's loops moves the iterator where `IterNext` says |
| Utf8.Utf8Iterator.Deref | base/string.h:91-115 | the method with the source's loops returns `IterValue`, whose fold shifts within 32 bits |
| Utf8.IterLeadLength | base/string.h:56-59 | the lead-byte loop of `operator++` and `operator*` ends with one more than the count of 1 bits after the top bit, at most 8 |
| Utf8.IterContinue | base/string.h:103-111 | the continuation loop of `operator*` returns `IterFold`: six bits per 10xxxxxx byte into a 32-bit `int`, and '^' at the first byte that is not one |
| Utf8.IterLoneContinuation | base/string.h:91-115 | a lone continuation byte is read as its low seven bits and skipped alone |
| Utf8.ReadersDisagreeOnBrokenSequence | base/string.h:67-70 | on C3 41 `next()` consumes both bytes and reports an error, while `operator*` yields '^' and `operator++` stops in front of the 41 |
| Utf8.IterAgreesOnEncoded | base/string.h:52-115 | on a well-formed encoding the iterator reads the same value and moves past the same bytes as `next()` |
| RecentItems.FindIf | base/recent_items.h:37 | std::find_if: the index found satisfies the predicate and no earlier element does; `|s|` when none does |
| RecentItems.Added | base/recent_items.h:36-52 | `addItem`: a matching entry is erased and the item put in front with the length unchanged; otherwise the item is pushed in front and the list cut to the limit from the back, and with limit 0 the list is emptied |
| RecentItems.Removed | base/recent_items.h:54-59 | `removeItem`: the list is unchanged exactly when nothing matches; otherwise the first match is erased |
| RecentItems.AddedWithinLimit | base/recent_items.h:47-51 | a list within its limit stays within it after `addItem` |
| RecentItems.AddedTwice | base/recent_items.h:36-45 | adding an item the predicate recognises twice is the same as adding it once |
| RecentItems.RemoveAfterAdd | base/recent_items.h:36-59 | removing a just-added new entry gives back the old list cut to one less than the limit |
| RecentItems.RecentItems.constructor | base/recent_items.h:25 | an empty list with the given limit |
| RecentItems.RecentItems.Clear | base/recent_items.h:33 | `clear` empties the list and keeps the limit |
| RecentItems.RecentItems.AddItem | base/recent_items.h:36-52 | the method with the source's trimming loop leaves exactly `Added` of the old list and keeps the list within its limit |
| RecentItems.RecentItems.RemoveItem | base/recent_items.h:54-59 | leaves exactly `Removed` of the old list |
| RecentItems.RecentItems.SetLimit | base/recent_items.h:61-71 | entries beyond the new limit are dropped from the back and the limit is replaced |
| TextBlob.GetGlyphUtf8Range | text/text_blob.cpp:19-41 | past the last glyph an empty range at 0; otherwise the range starts at the glyph's cluster, and the last glyph (left to right) or the first (right to left) ends at the run's end |
| TextBlob.RangesAdjacent | text/text_blob.cpp:28-39 | neighbouring glyphs' ranges meet: left to right a glyph's range ends where the next one's begins, right to left where the previous one's begins |
| TextBlob.LtrSpanTelescopes | text/text_blob.cpp:28-33 | left to right, the range lengths from glyph `lo` on add up to the bytes from that glyph's cluster to the run's end |
| TextBlob.LtrRangesCoverRun | text/text_blob.cpp:28-33 | left to right, the range lengths of all glyphs add up to the bytes from the first cluster to the run's end |
| TextBlob.RtlSpanTelescopes | text/text_blob.cpp:35-39 | right to left, the range lengths of glyphs 0..hi-1 add up to the bytes from glyph hi-1's cluster to the run's end |
| TextBlob.RtlRangesCoverRun | text/text_blob.cpp:35-39 | right to left, the range lengths of all glyphs add up to the bytes from the last cluster to the run's end |
| TextBlob.RangeInside | text/text_blob.cpp:28-39 | with clusters in text order for the run's direction and inside the run's range, each glyph's range is a range within the run's |
| TextBlob.RangesApart | text/text_blob.cpp:28-39 | with clusters in text order, a later glyph's range lies after an earlier one's (left to right) or before it (right to left), without overlap |
| TextBlob.LtrRangesTile | text/text_blob.cpp:28-33 | left to right, with ascending clusters inside the run, the glyph ranges lie within the run's range in text order without overlap |
| TextBlob.RtlRangesTile | text/text_blob.cpp:35-39 | right to left, with descending clusters inside the run, the glyph ranges lie within the run's range in reverse text order without overlap |
| TextBlob.GetGlyphBounds | text/text_blob.cpp:43-66 | past the last glyph an empty rectangle; otherwise the font's box moved by the glyph's position and offset, its size kept unless it is empty, in which case it is the average character width by minus the cap height |
| SpriteSheetFont.CodePointToGlyph | text/sprite_sheet_font.h:90-99 | the index `cp - 32 + 2`, cut to 16 bits, is returned exactly when it names a non-empty entry of the table; otherwise 0 |
| SpriteSheetFont.GetCharBounds | text/sprite_sheet_font.h:112-121 | the box of the code point's glyph, else that of the glyph for 128, else an empty rectangle; any non-empty result is an entry of the table |
| SpriteSheetFont.GetGlyphBounds | text/sprite_sheet_font.h:101-106 | the table entry for an index inside the table, the replacement box for any index past it |
| SpriteSheetFont.Height | text/sprite_sheet_font.h:53-55 | the height of the space's box, 0 when neither the space nor the replacement has a glyph |
| SpriteSheetFont.Metrics | text/sprite_sheet_font.h:41-51 | `metrics` returns the height and writes minus the height as the ascent |
| SpriteSheetFont.Advances | text/sprite_sheet_font.h:57-63 | the summed box widths of the decoded code points: 0 for none, never negative when no box width is |
| SpriteSheetFont.AdvancesAppend | text/sprite_sheet_font.h:57-63 | the advance of two stretches of text is the sum of their advances |
| SpriteSheetFont.TextLength | text/sprite_sheet_font.h:57-63 | the decode loop adds up exactly the box widths of the code points read until `next()` returns 0 |
| SpriteSheetFont.MeasureText | text/sprite_sheet_font.h:65-72 | the width is the text length, and the box is that width by the font's height at the origin |
| SpriteSheetFont.Skip | text/sprite_sheet_font.h:147-156 | the skip loop stops at the first non-key pixel in reading order, or runs off the bottom with x = 0 and height 1; it never moves back and never touches the width; every pixel it passes over (the rest of the first row, the whole rows skipped, and the start of the row it stops on) is the key colour, and a new row starts `bounds.h` lower with height 1 |
| SpriteSheetFont.RunRight | text/sprite_sheet_font.h:160-164 | the width loop counts non-key pixels to the right: all of them are non-key, the run stays inside the sheet, and it ends at a key pixel or the right edge |
| SpriteSheetFont.RunDown | text/sprite_sheet_font.h:166-170 | the height loop counts non-key pixels downward: all of them are non-key, the run stays inside the sheet, and it ends at a key pixel or the bottom |
| SpriteSheetFont.Find | text/sprite_sheet_font.h:143-180 | `findGlyph` as a function: a box found is non-empty, no earlier in reading order than the start, and bounded by key pixels or the sheet's edges; its glyph is the box unless the first pixel is red; when nothing is found the box is empty or below the sheet |
| SpriteSheetFont.FindGlyph | text/sprite_sheet_font.h:143-180 | the method with the source's three loops returns exactly `Find`: the first non-key pixel in reading order and the runs measured from it |
| SpriteSheetFont.SkipKey | text/sprite_sheet_font.h:147-156 | the skip loop as a method computes exactly `Skip` |
| SpriteSheetFont.MeasureRight | text/sprite_sheet_font.h:160-164 | the width loop as a method computes exactly `RunRight` |
| SpriteSheetFont.MeasureDown | text/sprite_sheet_font.h:166-170 | the height loop as a method computes exactly `RunDown` |
| SpriteSheetFont.Boxes | text/sprite_sheet_font.h:133-136 | the boxes `FromSurface` finds, in order: each is a non-empty glyph box of the sheet, the first is no earlier than the start, and each next one is no earlier than the point just right of the one before |
| SpriteSheetFont.BoxesNext | text/sprite_sheet_font.h:133-136 | one found box moves from the boxes ahead to the boxes seen, and the scan resumes just right of it |
| SpriteSheetFont.FindAdvances | text/sprite_sheet_font.h:133-136 | after a box is found, the next scan starts at a valid position strictly further along the sheet in reading order, so the loop ends |
| SpriteSheetFont.TableAppend | text/sprite_sheet_font.h:134 | the entry for a found box goes at the end of the table, after those of the boxes found before |
| SpriteSheetFont.GlyphsOf | text/sprite_sheet_font.h:172-177 | one table entry per box: the box, or an empty rectangle when its first pixel is red |
| SpriteSheetFont.Table | text/sprite_sheet_font.h:123-139 | the glyph table of a sheet, the two empty reserved entries then one entry per box, is a glyph table of the sheet |
| SpriteSheetFont.FirstBoxIsFirstInk | text/sprite_sheet_font.h:130-156 | no glyph is missed at the start: every pixel before the first box in reading order is the key colour |
| SpriteSheetFont.FromSurface | text/sprite_sheet_font.h:123-139 | the method with the source's loop builds exactly `Table`: the two empty reserved glyphs, then one entry per box the scan finds, in order |
| SpriteSheetFont.GlyphIndexWraps | text/sprite_sheet_font.h:91 | the glyph index is 16 bits wide: U+10020 maps to the glyph of the space |
| SpriteSheetFont.AsciiGlyph | text/sprite_sheet_font.h:90-99 | a printable code point whose slot holds a box maps to slot `cp - 30` and its box |
| SpriteSheetFont.ReservedGlyphsUnused | text/sprite_sheet_font.h:126-127 | the null glyph 1 is never returned for any code point |
| SpriteTextBlob.RunBuffer.constructor | text/sprite_text_blob.cpp:109 | a fresh run has no sub-blob, an empty range at 0 and no glyphs |
| SpriteTextBlob.RunBuffer.Add | text/sprite_text_blob.cpp:61-68 | `Run::add` appends one glyph, one position and one cluster, keeps the rest, and keeps the three vectors side by side |
| SpriteTextBlob.RunBuffer.Clear | text/sprite_text_blob.cpp:70-77 | `Run::clear` drops the sub-blob and the vectors, and the next range starts where the old one ended |
| SpriteTextBlob.OwnInfo | text/sprite_text_blob.cpp:81-94 | the info reported for an own run carries the blob's font, the run's range, its glyphs, positions and clusters, left to right and without offsets |
| SpriteTextBlob.Visits | text/sprite_text_blob.cpp:79-96 | without sub-blobs, `visitRuns` makes one call per run, in order, with that run's info |
| SpriteTextBlob.VisitsAppend | text/sprite_text_blob.cpp:83-95 | the calls for two lists of runs are those of the first then those of the second |
| SpriteTextBlob.VisitRuns | text/sprite_text_blob.cpp:79-96 | the loop makes exactly the calls `Visits` lists: a sub-blob's own calls in place of its run, one call for any other run |
| SpriteTextBlob.Kept | text/sprite_text_blob.cpp:121-128 | the code points kept are in order, drawable, and all of them when all are drawable |
| SpriteTextBlob.Lay | text/sprite_text_blob.cpp:114-135 | the layout holds one glyph, position and cluster per kept code point, and no more glyphs than code points |
| SpriteTextBlob.LayShape | text/sprite_text_blob.cpp:114-135 | each kept code point gives its glyph with its byte offset as cluster on the baseline; the first glyph is at x 0, each next one where the previous advance ends, and the pen ends after the last; no glyph means empty bounds |
| SpriteTextBlob.LayBoundsHoldGlyphs | text/sprite_text_blob.cpp:132-133 | the text bounds contain every laid-out glyph's box at its pen position |
| SpriteTextBlob.LayStep | text/sprite_text_blob.cpp:122-134 | one more code point adds its glyph at the pen, widens the bounds by its placed box and moves the pen by its width, or changes nothing when it cannot be drawn |
| SpriteTextBlob.MadeBlob | text/sprite_text_blob.cpp:98-141 | the blob has the font and at most one run, of its own glyphs, non-empty, covering the text from 0 to where decoding stopped |
| SpriteTextBlob.Make | text/sprite_text_blob.cpp:98-141 | the decode loop with the source's skips builds exactly `MadeBlob` |
| SpriteTextBlob.AddCodePoint | text/sprite_text_blob.cpp:121-134 | a code point without a glyph or with an empty box changes nothing; any other is added at the pen, its box joins the bounds and the pen moves past it, so the layout stays that of the code points read so far |
| SpriteTextBlob.MakeKeepsOffsets | text/sprite_text_blob.cpp:130 | the blob has a run exactly when some code point is drawable, and each glyph's cluster is its code point's byte offset |
| SpriteTextBlob.MadeBlobVisits | text/sprite_text_blob.cpp:79-96 | visiting a made blob reports each of its runs once, with its font, left to right, from byte 0 |
| SpriteTextBlobShaper.OffsetHandler.Adjust | text/sprite_text_blob_shaper.cpp:42-47 | `commitRunBuffer` moves both ends of the byte range by the offset, sets the origin and changes nothing else in the run info |
| SpriteTextBlobShaper.OffsetHandler.Forward | text/sprite_text_blob_shaper.cpp:42-51 | the original handler gets each committed run, adjusted, in order, and nothing when there is no original handler |
| SpriteTextBlobShaper.AdjustRoundTrip | text/sprite_text_blob_shaper.cpp:44-46 | moving by the offset keeps a range well formed and its length, and moving back by minus the offset restores the run info |
| SpriteTextBlobShaper.AdjustNested | text/sprite_text_blob_shaper.cpp:149-153 | offset handlers in a chain move a run by the sum of their offsets and leave the outer origin |
| SpriteTextBlobShaper.Aligned | text/sprite_text_blob_shaper.cpp:145-147 | the fallback blob's origin is the pen's x, with y moved so that the two fonts share a baseline |
| SpriteTextBlobShaper.FallbackBoxAsWritten | text/sprite_text_blob_shaper.cpp:157 | as written, the text bounds take in the fallback blob's own bounds, not moved to where it is drawn |
| SpriteTextBlobShaper.FallbackBox | text/sprite_text_blob_shaper.cpp:157 | corrected: the box taken in is the blob's bounds moved to its drawing origin, same size |
| SpriteTextBlobShaper.FallbackBoxAsWrittenMissesBlob | text/sprite_text_blob_shaper.cpp:155-158 | a sprite glyph 5 wide followed by a fallback blob 7 wide: the bounds as written do not contain the blob where it is drawn |
| SpriteTextBlobShaper.OwnInfos | text/sprite_text_blob_shaper.cpp:75-87 | the handler hears at most one info per stored run: the sprite runs, not the fallback ones |
| SpriteTextBlobShaper.OwnInfosAreVisits | text/sprite_text_blob_shaper.cpp:75-90 | with no fallback run, the handler hears during shaping exactly what `visitRuns` reports later |
| SpriteTextBlobShaper.ValidStart | text/sprite_text_blob_shaper.cpp:73-94 | the empty state before the loop satisfies the loop invariant |
| SpriteTextBlobShaper.ValidAddGlyph | text/sprite_text_blob_shaper.cpp:168-176 | adding a drawable glyph at the pen, with its cluster relative to the run, widening the bounds and moving the pen keeps the invariant |
| SpriteTextBlobShaper.ValidCloseRun | text/sprite_text_blob_shaper.cpp:105-108 | storing a non-empty sprite run, telling the handler about it and starting an empty run at the current byte keeps the invariant |
| SpriteTextBlobShaper.ValidStoreFallback | text/sprite_text_blob_shaper.cpp:154-164 | storing the blob the fallback shaper returned as a run at the pen, widening the bounds by its drawn box and moving the pen by its width keeps the invariant (with the corrected fallback box, see ## Findings) |
| SpriteTextBlobShaper.ValidFallback | text/sprite_text_blob_shaper.cpp:127-165 | a whole fallback stretch, with or without a blob, keeps the invariant (with the corrected fallback box, see ## Findings) |
| SpriteTextBlobShaper.ValidEnd | text/sprite_text_blob_shaper.cpp:179-183 | at the end, the runs follow the text without overlap, every drawn box is within the bounds (with the corrected fallback box, see ## Findings), and the handler heard the sprite runs in order (exactly them when the fallback commits nothing) |
| SpriteTextBlobShaper.AddRun | text/sprite_text_blob_shaper.cpp:75-90 | `addRun` pushes a copy of the run, tells the handler about it only when there is one and the run has no sub-blob, and clears the run so the next starts where it ended |
| SpriteTextBlobShaper.SkipFallback | text/sprite_text_blob_shaper.cpp:110-125 | the sub-decoder loop stops exactly where `SkipStop` says: before the first code point with a sprite glyph, or after the call of `next()` that returned 0 |
| SpriteTextBlobShaper.ShapeFallback | text/sprite_text_blob_shaper.cpp:127-165 | the fallback branch computes `AfterFallback`: the committed runs reach the log through an offset handler at the aligned origin, a run is stored only when a blob comes back, and the next run starts at `j` (with the corrected fallback box, see ## Findings) |
| SpriteTextBlobShaper.Fallback | text/sprite_text_blob_shaper.cpp:105-166 | the whole branch for a code point without a glyph: a non-empty current run is stored and committed first, the decoder moves to `SkipStop`, and the stretch up to it is shaped as `AfterFallback` says, so the invariant holds (with the corrected fallback box, see ## Findings) |
| SpriteTextBlobShaper.MarkEnd | text/sprite_text_blob_shaper.cpp:98 | the current run's range ends at the code point just read, nothing else changes, and the invariant holds |
| SpriteTextBlobShaper.AddGlyph | text/sprite_text_blob_shaper.cpp:168-176 | `run.add`, the bounds and the pen change as `AfterGlyph` says, and the invariant holds with the decoder past the code point |
| SpriteTextBlobShaper.CloseRun | text/sprite_text_blob_shaper.cpp:105-108 | the run so far is appended to the runs, committed to the handler when there is one, and an empty run restarts at the current byte; the invariant holds |
| SpriteTextBlobShaper.MakeWithShaper | text/sprite_text_blob_shaper.cpp:61-184 | the blob and the handler log are those of `Shaping`, the loop followed code point by code point (each code point with a glyph joins the sprite run, each stretch without one becomes one fallback call); the runs follow the text in order without overlap, every drawn box is within the bounds (with the corrected fallback box, see ## Findings), and the handler hears the sprite runs in order among the fallback's (exactly them when the fallback commits nothing) |
| SpriteTextBlobShaper.RunsWfAppend | text/sprite_text_blob_shaper.cpp:105-108 | a run that lies in the text after every stored run, sprite or fallback and well formed, keeps the stored runs well formed |
| SpriteTextBlobShaper.RunInsideUnion | text/sprite_text_blob_shaper.cpp:175 | growing the bounds with `|=` keeps a run whose drawn boxes lie in them inside |
| SpriteTextBlobShaper.AfterGlyph | text/sprite_text_blob_shaper.cpp:168-176 | after a sprite glyph the current run has one more glyph at the old pen with its byte offset relative to the run as cluster, the pen moves by the glyph's advance, and the stored runs and log are unchanged |
| SpriteTextBlobShaper.AfterGlyphCurrent | text/sprite_text_blob_shaper.cpp:172 | adding a drawable glyph past the run's last cluster keeps the current run well formed |
| SpriteTextBlobShaper.AfterGlyphInside | text/sprite_text_blob_shaper.cpp:174-175 | the bounds after `|= glyphBounds` hold the new glyph and every box they held before |
| SpriteTextBlobShaper.Closed | text/sprite_text_blob_shaper.cpp:98 | the stored run is the current one with its range ending at the offset of the code point just read |
| SpriteTextBlobShaper.ClosedRunWf | text/sprite_text_blob_shaper.cpp:98-108 | a current run with glyphs, closed at the current offset, is a well-formed sprite run inside the text and within the bounds |
| SpriteTextBlobShaper.CloseRunStored | text/sprite_text_blob_shaper.cpp:105-108 | closing the current run keeps the stored runs well formed, before the current offset and within the bounds |
| SpriteTextBlobShaper.CloseRunLogged | text/sprite_text_blob_shaper.cpp:75-87 | closing the current run commits it after everything the handler already heard, and nothing without a handler |
| SpriteTextBlobShaper.AfterFallback | text/sprite_text_blob_shaper.cpp:127-165 | after a fallback stretch the next run is empty and starts at `j` (with the corrected fallback box, see ## Findings) |
| SpriteTextBlobShaper.FirstGlyph | text/sprite_text_blob_shaper.cpp:120-123 | the index of the first decoded code point with a sprite glyph: none before it has one, and it has one unless it is past the end |
| SpriteTextBlobShaper.SkipStopSpec | text/sprite_text_blob_shaper.cpp:110-125 | where the inner loop stops, in terms of the code points ahead: before the first with a glyph, or one `next()` past the last when none has one |
| SpriteTextBlobShaper.ShapeFromStep | text/sprite_text_blob_shaper.cpp:95-177 | one pass of the loop: a 0 closes the last run; a code point without a glyph closes the run and shapes the stretch to `SkipStop`; one with a glyph joins the run |
| SpriteTextBlobShaper.AllSpriteFrom | text/sprite_text_blob_shaper.cpp:95-184 | while every code point ahead has a glyph, the loop builds the layout `Make` builds, with no fallback run, and the handler hears exactly the visits of that blob |
| SpriteTextBlobShaper.ShaperAgreesWithMake | text/sprite_text_blob_shaper.cpp:61-184 | when the sprite font has a glyph for every decoded code point, `MakeWithShaper` gives the runs and bounds of `Make` and the handler hears exactly what `visitRuns` reports |
| TextBlobShaper.SpriteAgrees | text/text_blob_shaper.cpp:30-31 | when the sprite font has a glyph for every decoded code point, the sprite shaper's blob is the one `SpriteTextBlob::Make` builds and the handler hears exactly that blob's visits |
| TextBlobShaper.MakeWithShaper | text/text_blob_shaper.cpp:22-46 | a blob comes back exactly for a sprite-sheet font, or for a native font in a Skia build when the native shaper returns one; a sprite font gets the sprite shaper's blob and handler calls (those of `Make` when it covers the text); a native font gets the native shaper's blob and its committed runs when there is a handler; FreeType, unknown fonts and native fonts without Skia give no blob and no handler call |
| DrawText.Chain | text/draw_text.cpp:169-173 | the fonts met along the fallback chain are fonts of the table, starting with the first fallback, and there are none without one |
| DrawText.FirstWith | text/draw_text.cpp:172-173 | the font the walk finds has the code point |
| DrawText.FirstWithIsFirst | text/draw_text.cpp:169-175 | the walk finds no font exactly when no font of the chain has the code point, and otherwise the first one of the chain that has it |
| DrawText.Search | text/draw_text.cpp:161-183 | the font search ends with a font of the table |
| DrawText.Scan | text/draw_text.cpp:167-182 | the scan of the code points ends with a font of the table |
| DrawText.ChainTransitive | text/draw_text.cpp:169-180 | a font on the chain of a font on the chain of `from` is on the chain of `from`, so repeated switches stay on the first chain |
| DrawText.FirstWithOnChain | text/draw_text.cpp:172-173 | the font the walk finds is on the chain it walked |
| DrawText.SearchFollowsChain | text/draw_text.cpp:161-183 | the search ends with the start font or a font of its fallback chain, and the baseline moves by half the start font's height less half the final font's |
| DrawText.ScanFollowsChain | text/draw_text.cpp:167-182 | the same for the scan loop once a fallback exists |
| DrawText.SearchKeepsCoveringFont | text/draw_text.cpp:164-168 | a font that has every code point of the text is kept, with the baseline unchanged |
| DrawText.SearchStopsAtMissing | text/draw_text.cpp:172-175 | a code point that no fallback has stops the search with the current font and baseline |
| DrawText.SearchFont | text/draw_text.cpp:158-183 | the `retry` loop with its `goto` computes exactly `Search` over the text's code points |
| DrawText.WalkChain | text/draw_text.cpp:169-173 | the inner walk loop returns exactly `FirstWith` |
| DrawText.DrawSprites | text/draw_text.cpp:200-226 | the sprite loop computes exactly `DrawItems` over the text's code points |
| DrawText.DrawOne | text/draw_text.cpp:202-225 | one character: shown to the delegate, the loop stops when `preDrawChar` refuses it, otherwise a non-empty box is drawn when there is a surface, the bounds take in the box and the pen moves by its width |
| DrawText.DrawChar | text/draw_text.cpp:207-225 | the loop body for one decoded character computes the step of `DrawItems`: it stops exactly when the delegate refuses the box, and otherwise the rest of the text continues from the new drawing state |
| DrawText.DrawAdvancesByTextLength | text/draw_text.cpp:207-225 | without a delegate the pen ends at the start x plus the sum of the character widths, what `textLength` measures |
| DrawText.DrawnBoxesInsideBounds | text/draw_text.cpp:216-221 | only non-empty boxes are drawn, at most one per code point, each on the baseline and inside the returned text bounds |
| DrawText.DelegateStopsFirst | text/draw_text.cpp:210-214 | a delegate refusing the first character stops the loop after `preProcessChar` with nothing drawn and the pen and bounds unchanged |
| DrawText.Draw | text/draw_text.cpp:148-233 | after the font search, a sprite font draws with the found font and baseline, an unknown or native font leaves the bounds empty and draws nothing, and the FreeType branch gives its own bounds |
| DrawText.CommitRunBuffer | text/draw_text.cpp:53-80 | a run without clusters or glyphs gives no calls; otherwise one call per glyph with its byte range by the left-to-right or right-to-left rule and its box moved by the origin |
| DrawText.DrawItemsGrows | text/draw_text.cpp:200-226 | the sprite loop only adds to what it found: the boxes drawn and the characters shown to the delegate grow by at most one per code point, nothing is shown without a delegate and nothing drawn without a surface |
| DrawText.ClipsInsideStep | text/draw_text.cpp:216-221 | drawing one more character's box, when it is not empty and there is a surface, keeps every drawn box on the baseline and inside the bounds grown by that character's box |
| HbShaper.CodePointsOf | ft/hb_shaper.h:111-116 | the code points copied from a buffer are its own, one per entry, in order |
| HbShaper.BufItems | ft/hb_shaper.h:36-54 | each code point the decode loop reads goes into a buffer with its byte offset as cluster, in order |
| HbShaper.Segments | ft/hb_shaper.h:32-56 | the segmentation has at least one buffer, and the first has the script the loop started with |
| HbShaper.SegmentsStep | ft/hb_shaper.h:45-54 | one code point closes the buffer and starts one of its script when its guessed script is set and differs, and otherwise joins the current buffer |
| HbShaper.FlattenAppend | ft/hb_shaper.h:49-56 | the buffers of two segmentations, one after the other, are those of the first then those of the second |
| HbShaper.SegmentsKeepText | ft/hb_shaper.h:35-56 | splitting by script loses, adds and reorders nothing: the buffers one after the other hold every code point read with its offset |
| HbShaper.KeepTextOnChange | ft/hb_shaper.h:48-54 | the same when the first code point starts a new buffer |
| HbShaper.KeepTextOnJoin | ft/hb_shaper.h:54 | the same when the first code point joins the current buffer |
| HbShaper.FlattenOne | ft/hb_shaper.h:56 | one buffer flattened is its own entries |
| HbShaper.SegmentsChangeScript | ft/hb_shaper.h:48-52 | each buffer after the first has a set script different from the one before and starts with a code point guessed to be of that script |
| HbShaper.SegmentsFirst | ft/hb_shaper.h:48-54 | the first buffer of a segmentation starts with what the current buffer already held |
| HbShaper.AllCodePointsFlatten | ft/hb_shaper.h:107-117 | the code points collected from all buffers are those of the text, in order |
| HbShaper.AllAppend | ft/hb_shaper.h:95-134 | closing one more buffer appends its code points and, when it is not empty, its shaped glyphs |
| HbShaper.GlyphsWithinCodePoints | ft/hb_shaper.h:62-64 | when shaping never makes more glyphs than code points, there are no more glyphs than code points, so `next()` never reads past `m_codePoints` |
| HbShaper.HBShaper.constructor | ft/hb_shaper.h:24-60 | an empty string gives no code points and no glyphs; otherwise the code points and glyphs are those of the text split by script, each non-empty buffer shaped in order; the cursor starts at -1 |
| HbShaper.HBShaper.AddBuffer | ft/hb_shaper.h:95-134 | an empty buffer changes nothing; otherwise its code points and its shaped glyphs are appended and the glyph count grows by their number |
| HbShaper.HBShaper.Next | ft/hb_shaper.h:62-66 | the cursor moves on by one and the result is the code point there while glyphs remain, 0 after |
| HbShaper.HBShaper.UnicodeChar | ft/hb_shaper.h:68-73 | the code point at the cursor when it is inside the code points, 0 otherwise |
| HbShaper.HBShaper.CharIndex | ft/hb_shaper.h:75-77 | the cluster of the glyph at the cursor |
| HbShaper.HBShaper.GlyphIndex | ft/hb_shaper.h:79-82 | the glyph index at the cursor, cut to 16 bits |
| HbShaper.EmptyStringHasNoGlyphs | ft/hb_shaper.h:26-28 | a shaper built on an empty string returns 0 from its first `next()` |
| Dnd.AnyIsAllFlags | os/dnd.h:27-33 | `Any` is the union of Copy, Move and Link, three disjoint flags |
| Dnd.DefaultContains | os/dnd.h:47 | the default `contains` reports no type |
| Dnd.DragEvent.constructor | os/dnd.h:52-59 | the event keeps its target, supported operations, position and provider, proposes Copy and is not accepted |
| Dnd.DragEvent.SetDropResult | os/dnd.h:72 | the drop result becomes the value given, unchecked, and acceptance is unchanged |
| Dnd.DragEvent.SetAcceptDrop | os/dnd.h:75 | acceptance becomes the value given, and the drop result is unchanged |
| Dnd.DragEvent.SourceSupports | os/dnd.h:77 | true exactly when every flag of the operation is supported by the source; `None` is always supported |
| Dnd.DropResultRoundTrip | os/dnd.h:63-75 | a drop result and an acceptance set on an event read back as set, whatever the value |
| WinDnd.AsDropEffect | os/win/dnd.cpp:18-31 | each of Copy, Move and Link sets exactly its DROPEFFECT bit, and no other bit is ever set |
| WinDnd.AsDropOperation | os/win/dnd.cpp:33-46 | each DROPEFFECT Copy, Move and Link bit sets its flag; every other DWORD bit is ignored |
| WinDnd.DropEffectRoundTrip | os/win/dnd.cpp:18-46 | every combination of Copy, Move and Link survives the trip to a DROPEFFECT and back |
| WinDnd.DropOperationRoundTrip | os/win/dnd.cpp:18-46 | a DROPEFFECT comes back from the trip with only its Copy, Move and Link bits |
| WinDnd.DragTargetAdapter.constructor | os/win/dnd.cpp:262-266 | a new adapter for a window holds no data object, no references and has notified nothing |
| WinDnd.DragTargetAdapter.Notify | os/win/dnd.cpp:263-270 | the window is told once, with the offered operations at the current position, and the result written back is the DROPEFFECT of the drop result it set, Copy when it set none |
| WinDnd.DragTargetAdapter.DragEnter | os/win/dnd.cpp:249-273 | E_NOTIMPL with nothing changed without a drag target; a null object is stored and gives E_UNEXPECTED with nobody told; otherwise the object and position are stored, the window is told of DragEnter with the offered operations and the chosen effect is written back |
| WinDnd.DragTargetAdapter.DragOver | os/win/dnd.cpp:275-294 | E_NOTIMPL with nothing changed without a drag target; otherwise the position is stored, the window is told of the drag, and the chosen effect is written back |
| WinDnd.DragTargetAdapter.DragLeave | os/win/dnd.cpp:296-310 | E_NOTIMPL with nothing changed without a drag target; otherwise the window is told with no operation at the last position, and the data object is released |
| WinDnd.DragTargetAdapter.Drop | os/win/dnd.cpp:312-336 | as DragEnter, with the window told of the drop and the data object released afterwards |
| WinDnd.DragTargetAdapter.AddRef | os/win/dnd.cpp:234-237 | one more reference, and the new count is returned |
| WinDnd.DragTargetAdapter.Release | os/win/dnd.cpp:239-247 | one reference less, the new count is returned, and the adapter is deleted exactly when the count reaches zero |
| WinDnd.DragTargetAdapter.QueryInterface | os/win/dnd.cpp:220-232 | a null out-pointer gives E_INVALIDARG; an interface other than IDropTarget or IUnknown gives E_NOINTERFACE with nothing handed out; otherwise the adapter is handed out and gains a reference |
| WinDnd.DefaultResultIsCopy | os/win/dnd.cpp:270 | a target that sets no drop result makes the adapter report DROPEFFECT_COPY |
| OsxDnd.AsNsDragOperationAsWritten | os/osx/dnd.h:89-102 | as written, from an uninitialised start: each flag present sets its NSDragOperation bit, and nothing more is promised |
| OsxDnd.AsNsDragOperation | os/osx/dnd.h:89-102 | corrected, starting from NSDragOperationNone: exactly the Copy, Move and Link bits of the flags present |
| OsxDnd.AsDropOperation | os/osx/dnd.h:104-117 | the Copy, Move and Link bits map to their flags; Generic, Private, Delete and every other bit are dropped |
| OsxDnd.NsDragOperationRoundTrip | os/osx/dnd.h:89-117 | with the start initialised, every combination of Copy, Move and Link survives the trip to NSDragOperation and back |
| OsxDnd.AsWrittenRoundTripFails | os/osx/dnd.h:91-93 | as written, a Copy result whose uninitialised start holds the Move bit comes back as Copy and Move |
| OsxDnd.Contains | os/osx/dnd.h:73-85 | true exactly when some pasteboard type answers the request |
| OsxDnd.ContainsByType | os/osx/dnd.h:75-82 | paths are there exactly when the file-names type is, an image exactly when TIFF or PNG is |
| OsxDnd.GetPaths | os/osx/dnd.h:35-47 | nothing without the file-names type; otherwise one normalised path per file name, in order |
| OsxDnd.DragPosition | os/osx/dnd.h:119-125 | x is kept and y is flipped against the content height |
| OsxDnd.DragPositionInvolution | os/osx/dnd.h:119-125 | flipping twice against the same height gives the point back |
| X11EventQueue.SelectTimeout | os/x11/event_queue.cpp:69-82 | the milliseconds become whole seconds and the remaining microseconds, a valid `timeval` for the same duration |
| X11EventQueue.WaitAsWritten | os/x11/event_queue.cpp:111-117 | as written, with 64-bit unsigned ticks: a wait happens exactly when timeout and elapsed time differ, and it is the remaining time only when the timeout has not run out |
| X11EventQueue.WaitAsWrittenOverruns | os/x11/event_queue.cpp:112-116 | a call that has taken 11 ms of a 10 ms timeout waits 2^64 - 1 ms instead of not at all |
| X11EventQueue.Wait | os/x11/event_queue.cpp:111-117 | corrected: a wait happens exactly when time is left, and it is what is left |
| X11EventQueue.Reactions | os/x11/event_queue.cpp:123-126 | XEvents for no known window queue nothing; one XEvent queues what its window queues for it |
| X11EventQueue.ReadCount | os/x11/event_queue.cpp:101-121 | getEvent reads no more XEvents than the connection holds, except when it blocks for one |
| X11EventQueue.EventQueueX11.constructor | os/x11/event_queue.cpp:86-89 | a new queue holds no event and has not waited |
| X11EventQueue.EventQueueX11.QueueEvent | os/x11/event_queue.cpp:86-89 | the event goes to the back of the FIFO, and the connection is left alone |
| X11EventQueue.EventQueueX11.ClearEvents | os/x11/event_queue.cpp:136-139 | the FIFO is emptied, and the connection is left alone |
| X11EventQueue.EventQueueX11.ProcessX11Event | os/x11/event_queue.cpp:141-149 | the events the XEvent's window queues go to the back of the FIFO; an XEvent without a window queues nothing |
| X11EventQueue.EventQueueX11.GetEvent | os/x11/event_queue.cpp:91-134 | the window of the event is cleared; the XEvents counted are each handled in order; the event returned is the front of the FIFO, or the caller's event with type None when the FIFO is empty; `select` is asked to wait only when nothing is queued, a positive timeout is given, and time is left (with the corrected wait, see ## Findings) |
| X11EventQueue.EventQueueX11.CountNative | os/x11/event_queue.cpp:101-121 | what is queued already is read; without a timeout and nothing queued, one event is read after blocking; with a positive timeout, what arrived while waiting (with the corrected wait, see ## Findings) |
| X11EventQueue.EventQueueX11.ReadNative | os/x11/event_queue.cpp:123-126 | the counted XEvents leave the connection in order, and what their windows queue is appended to the FIFO in order |
| X11EventQueue.QueueOrder | os/x11/event_queue.cpp:86-134 | two events queued one after the other come out of getEvent in the same order |
| X11EventQueue.PollEmpty | os/x11/event_queue.cpp:101-133 | with nothing queued and a zero timeout, getEvent neither waits nor reads the connection, and reports a None event without a window |
| XInput.PointerTypeOf | os/x11/xinput.h:53-59 | a name containing "stylus" is a pen, checked first; otherwise one containing "eraser" is an eraser; any other name is skipped |
| XInput.AddEventTo | os/x11/xinput.h:179-190 | a zero type or class changes nothing; otherwise the class is appended once; a type below 256 gets its slot, the table growing with None entries only when too short, every other entry kept; a type of 256 or more leaves the table alone |
| XInput.AddEventHandles | os/x11/xinput.h:113-117 | after `addEvent`, its type is handled exactly when it was given a real event type, and whether any other type is handled does not change |
| XInput.LoadClassesOpens | os/x11/xinput.h:62-95 | the class loop keeps the devices already open and only appends a device opened through a valuator class of three axes or more |
| XInput.LoadOpensOnlyPens | os/x11/xinput.h:48-96 | every device `load` opens is named as a pen or an eraser and has a valuator class of three axes or more; those open before stay in place |
| XInput.ScalePosition | os/x11/xinput.h:138-139 | device coordinates are divided by the scale as C int division does, so a scale of 1 keeps them |
| XInput.XInputState.constructor | os/x11/xinput.h:197-200 | a new object has no device, no pressure range, no class and an empty type table |
| XInput.XInputState.AddEvent | os/x11/xinput.h:179-190 | `addEvent` changes the two tables exactly as `AddEventTo` says, and nothing else |
| XInput.XInputState.Load | os/x11/xinput.h:31-99 | without the extension or a device list nothing changes; otherwise every device is visited in order, as `LoadDevices` says |
| XInput.XInputState.Unload | os/x11/xinput.h:101-105 | every opened device is closed, in order, and the list is emptied; the tables stay |
| XInput.XInputState.LoadDeviceClasses | os/x11/xinput.h:62-95 | the classes of one pen or eraser are visited in order: a valuator of three axes or more on a device that opens registers its three events, records its pressure range and type, and appends the device |
| XInput.XInputState.ConvertExtensionEvent | os/x11/xinput.h:119-176 | the type comes from the table, the position is the device position scaled down, a press or release carries its button, and the pointer type is the device's exactly when the device is known |
| XInput.RegisterAndHandle | os/x11/xinput.h:113-117 | a type registered on a fresh object with a real event is handled, and its class is selected exactly once |
| SkiaWindowBase.TargetSize | os/skia/skia_window_base.h:58-61 | each side of the backing surface is the client side divided by the scale, at least 1; at scale 1 a non-empty size is kept |
| SkiaWindowBase.Resize | os/skia/skia_window_base.h:54-73 | nothing before initialisation or with a custom surface; otherwise the surface has the target size afterwards, and it is reallocated, once and in the current colour space, exactly when it did not have that size already |
| SkiaWindowBase.ResizeIdempotent | os/skia/skia_window_base.h:63-68 | resizing twice to the same size allocates at most once: the second resize changes nothing |
| SkiaWindowBase.Reset | os/skia/skia_window_base.h:46-52 | custom is cleared; before initialisation the window is left without a surface; after it, a new surface of the client's target size is created |
| SkiaWindowBase.Initialize | os/skia/skia_window_base.h:105-108 | after `initializeSurface` the window is initialised, not custom, and has a surface of at least 1x1 in its colour space |
| SkiaWindowBase.ChangeColorSpace | os/skia/skia_window_base.h:89-94 | the space is stored; without a surface nothing else changes; with one, it is rebuilt in the new space once initialised |
| SkiaWindowBase.ResizesKeepSurface | os/skia/skia_window_base.h:54-73 | once initialised and without a custom surface, any series of resizes leaves a surface of the last target size, with at most one allocation per resize |
| SkiaWindowBase.ResizeAll | os/skia/skia_window_base.h:54-73 | a series of resizes keeps the initialised and custom flags |
| SkiaWindowBase.SkiaWindowBase.constructor | os/skia/skia_window_base.h:22-28 | a new window is not initialised, holds an empty default surface, has no colour space and is not custom |
| SkiaWindowBase.SkiaWindowBase.InitColorSpace | os/skia/skia_window_base.h:30-35 | the colour space becomes the one the native window reports; nothing else changes |
| SkiaWindowBase.SkiaWindowBase.SetSkiaSurface | os/skia/skia_window_base.h:41-44 | the given surface is used as it is and marked custom |
| SkiaWindowBase.SkiaWindowBase.ResizeSkiaSurface | os/skia/skia_window_base.h:54-73 | the surface fields change exactly as `Resize` says |
| SkiaWindowBase.SkiaWindowBase.ResetSkiaSurface | os/skia/skia_window_base.h:46-52 | the surface fields change exactly as `Reset` says |
| SkiaWindowBase.SkiaWindowBase.SetColorSpace | os/skia/skia_window_base.h:89-102 | the surface fields change as `ChangeColorSpace` says and exactly one ResizeWindow event for this window is queued |
| SkiaWindowBase.SkiaWindowBase.InitializeSurface | os/skia/skia_window_base.h:105-108 | the surface fields change exactly as `Initialize` says |
| SkiaWindowBase.ResetBeforeInitialize | os/skia/skia_window_base.h:46-56 | a new window is not initialised, and resetting its surface leaves it without one |
| SkiaDisplay.SkiaDisplay.constructor | os/skia/skia_display.cpp:23-36 | a display is initialised at once and then reset, so it starts with a surface of the client's target size, at least 1x1, in the native window's colour space, with the arrow cursor |
| SkiaDisplay.SkiaDisplay.SetSkiaSurface | os/skia/skia_display.cpp:38-42 | the given surface is used as it is and marked custom |
| SkiaDisplay.SkiaDisplay.ResizeSkiaSurface | os/skia/skia_display.cpp:53-73 | the surface fields change as `Resize` says, the same rule as the window base |
| SkiaDisplay.SkiaDisplay.ResetSkiaSurface | os/skia/skia_display.cpp:44-51 | the surface fields change exactly as `Reset` says |
| SkiaDisplay.SkiaDisplay.SetColorSpace | os/skia/skia_display.cpp:236-254 | the surface fields change as `ChangeColorSpace` says and exactly one ResizeDisplay event for this display is queued |
| SkiaDisplay.SkiaDisplay.SetScale | os/skia/skia_display.cpp:110-114 | the scale is stored for later resizes and the surface is left as it is |
| SkiaDisplay.SkiaDisplay.SetNativeMouseCursor | os/skia/skia_display.cpp:186-190 | the cursor is cached whatever the native window answers, and its answer is returned |
| SkiaDisplay.CursorCached | os/skia/skia_display.cpp:181-190 | a display reports the last cursor asked for even when the native window refused it, and it has a surface from the start |
| SkiaWindowWin.RenderTargetSize | os/skia/skia_window_win.cpp:385-397 | at scale 1 the render target has the window size; at any other scale it follows the surface sizing rule of the window base |
| SkiaWindowWin.DirtyRect | os/skia/skia_window_win.cpp:174-180 | the dirty rectangle is the region bounds scaled to device pixels: origin, width and height each times the scale |
| SkiaWindowWin.ChosenBackend | os/skia/skia_window_win.cpp:409-429 | ANGLE exactly when built with GPU and ANGLE support, GPU is on and an EGL context exists or can be made; GL exactly when ANGLE is not chosen, GPU is on and a context exists or can be made; otherwise none, always none without GPU |
| SkiaWindowWin.SkiaWindowWin.constructor | os/skia/skia_window_win.cpp:42-52 | a new window has no backend, no context, is not in a live resize, and takes its monitor's colour space |
| SkiaWindowWin.SkiaWindowWin.AttachAngle | os/skia/skia_window_win.cpp:279-311 | an existing context is kept; otherwise the new EGL context is used when it could be made; the result says whether a context exists |
| SkiaWindowWin.SkiaWindowWin.AttachGL | os/skia/skia_window_win.cpp:315-347 | the same with a WGL context |
| SkiaWindowWin.SkiaWindowWin.DetachGL | os/skia/skia_window_win.cpp:349-358 | with a context, the surface is reset to the window's own raster surface; the context is dropped in every case |
| SkiaWindowWin.SkiaWindowWin.CreateRenderTarget | os/skia/skia_window_win.cpp:360-403 | the size is remembered and the window draws into a custom surface of the render-target size |
| SkiaWindowWin.SkiaWindowWin.OnResize | os/skia/skia_window_win.cpp:407-452 | the backend is chosen as `ChosenBackend` says; the surface is then `Resize`d to the new size, from a custom render target of that size when there is a GL context, else from the surface `ChooseBackend` leaves; then the handler is called when set and the window is initialised, else a ResizeWindow event is queued unless a live resize is going on |
| SkiaWindowWin.SkiaWindowWin.ChooseBackend | os/skia/skia_window_win.cpp:409-429 | the backend and the context end as `ChosenBackend` says: with GPU support a context exists exactly when a GPU backend is chosen; the surface is reset to the client size exactly when a context was dropped, and is otherwise unchanged |
| SkiaWindowWin.SkiaWindowWin.OnStartResizing | os/skia/skia_window_win.cpp:454-457 | a live resize starts; nothing else changes |
| SkiaWindowWin.SkiaWindowWin.OnEndResizing | os/skia/skia_window_win.cpp:459-467 | the live resize ends and exactly one ResizeWindow event is queued |
| SkiaWindowWin.SkiaWindowWin.OnChangeColorSpace | os/skia/skia_window_win.cpp:469-472 | the colour space the window already holds is set again: the surface is rebuilt as `ChangeColorSpace` says and one ResizeWindow event is queued |
| SkiaWindowWin.SkiaWindowWin.InvalidateRegion | os/skia/skia_window_win.cpp:129-201 | an opaque window leaves it to the Win32 window; a transparent one without a surface with pixels does nothing; otherwise the layered window is updated with the dirty rectangle in device pixels |
| SkiaWindowWin.SkiaWindowWin.Destroy | os/skia/skia_window_win.cpp:54-71 | the GL context is detached exactly for the GL and ANGLE backends; with no backend the surface is untouched |
| SkiaWindowWin.LiveResizeQueuesOnce | os/skia/skia_window_win.cpp:446-467 | resizes during a live resize queue nothing, and its end queues exactly one ResizeWindow event, however many resizes came before |
| SkiaWindowX11.RequiredBytes | os/skia/skia_window_x11.cpp:86-90 | a buffer for an empty rectangle or a zero pixel size needs no bytes |
| SkiaWindowX11.SourceRect | os/skia/skia_window_x11.cpp:97 | the rectangle read from the surface is the dirty rectangle divided by the scale, as C int division does; at scale 1 it is the dirty rectangle itself |
| SkiaWindowX11.SkiaWindowX11.constructor | os/skia/skia_window_x11.cpp:49-55 | a new window is not initialised, holds an empty default surface in its monitor's colour space, has queued nothing and has no scratch buffer |
| SkiaWindowX11.SkiaWindowX11.OnQueueEvent | os/skia/skia_window_x11.cpp:57-61 | the event is tied to this window and goes to the back of the queue it was created with |
| SkiaWindowX11.SkiaWindowX11.OnResize | os/skia/skia_window_x11.cpp:114-130 | the surface is resized as `Resize` says; then the handler is called when set and the window is initialised, else a ResizeWindow event is queued, on every call |
| SkiaWindowX11.SkiaWindowX11.OnPaint | os/skia/skia_window_x11.cpp:63-112 | at scale 1 the buffer is untouched; at any other scale it grows to what the dirty rectangle needs and never shrinks; the surface is read from `SourceRect` |
| SkiaWindowX11.EveryResizeQueues | os/skia/skia_window_x11.cpp:114-130 | on a window that is not initialised, each resize queues its own ResizeWindow event |
| OsxWindowDelegate.WindowDelegate.constructor | os/osx/window_delegate.h:18-22 | the delegate is tied to the window implementation it is given and has forwarded nothing |
| OsxWindowDelegate.WindowDelegate.RemoveImpl | os/osx/window_delegate.h:24-27 | the delegate forgets its implementation; what was forwarded stays |
| OsxWindowDelegate.WindowDelegate.Forward | os/osx/window_delegate.h:31-35 | a call reaches the implementation exactly when there is one, and is dropped otherwise |
| OsxWindowDelegate.WindowDelegate.WindowShouldClose | os/osx/window_delegate.h:29-37 | the window never closes by itself: the answer is always no, and a CloseDisplay event is queued when there is an implementation |
| OsxWindowDelegate.WindowDelegate.WindowWillClose | os/osx/window_delegate.h:39-43 | the implementation, if any, is told `onClose` |
| OsxWindowDelegate.WindowDelegate.WindowWillStartLiveResize | os/osx/window_delegate.h:45-49 | the implementation, if any, is told that resizing starts |
| OsxWindowDelegate.WindowDelegate.WindowWillResize | os/osx/window_delegate.h:51-59 | the frame size is accepted as proposed, and the implementation, if any, is told the content size |
| OsxWindowDelegate.WindowDelegate.WindowDidEndLiveResize | os/osx/window_delegate.h:61-65 | the implementation, if any, is told that resizing ends |
| OsxWindowDelegate.WindowDelegate.WindowDidMiniaturize | os/osx/window_delegate.h:67-69 | miniaturising forwards nothing and changes nothing |
| OsxWindowDelegate.WindowDelegate.WindowWillEnterFullScreen | os/osx/window_delegate.h:71-75 | entering full screen starts a resize for the implementation, if any |
| OsxWindowDelegate.WindowDelegate.WindowDidEnterFullScreen | os/osx/window_delegate.h:77-81 | having entered full screen ends the resize for the implementation, if any |
| OsxWindowDelegate.WindowDelegate.WindowWillExitFullScreen | os/osx/window_delegate.h:83-87 | leaving full screen starts a resize for the implementation, if any |
| OsxWindowDelegate.WindowDelegate.WindowDidExitFullScreen | os/osx/window_delegate.h:89-97 | having left full screen ends the resize: `onEndResizing` is forwarded to the implementation, if any |
| OsxWindowDelegate.FullScreenRoundTrip | os/osx/window_delegate.h:51-97 | going into and out of full screen brackets each change with a start and an end of resizing, and a close request is only queued |
| OsxWindowDelegate.RemovedImplHearsNothing | os/osx/window_delegate.h:24-97 | after `removeImpl` every notification is dropped, and the window still refuses to close |
| Window.Bounds | os/window.cpp:18-21 | the bounds are the client area at the origin, of the window's width and height |
| Window.Invalidated | os/window.cpp:23-26 | `invalidate` covers exactly the points of the client area |
| Window.PointToScreen | os/window.cpp:28-34 | the client point is scaled and then moved by the content rectangle's origin |
| Window.PointFromScreen | os/window.cpp:36-42 | the screen point is moved back by the origin and divided by the scale, truncating, so it lands in the scaled pixel holding it |
| Window.FromScreenAfterToScreen | os/window.cpp:28-42 | a client point taken to the screen and back is the same point, for any non-zero scale |
| Window.ToScreenAfterFromScreenLoses | os/window.cpp:28-42 | the other way round is not exact: at scale 2 the screen point (1, 0) comes back as (0, 0) |
| Window.ToScreenAfterFromScreen | os/window.cpp:28-42 | a screen point taken to the client and back lands on the first screen pixel of its scaled pixel, never after it |
| CommonSystem.KeyModifiers | os/common/system.h:112-125 | each modifier bit is set exactly when one of its keys is down, AltGr setting both Ctrl and Alt, and no other bit is ever set |
| CommonSystem.KeyModifiersMonotone | os/common/system.h:112-125 | pressing more keys never clears a modifier bit |
| CommonSystem.Channel | os/common/system.h:157-159 | a colour component never exceeds its mask shifted down; all mask bits set give that maximum and none give 0 |
| CommonSystem.Rgba32 | os/common/system.h:142-154 | alpha comes from its mask or is opaque; each colour is premultiplied, so with 8-bit fields it never exceeds alpha, is kept at full alpha and is 0 at zero alpha |
| CommonSystem.Premultiply | os/common/system.h:151-153 | a component of at most 255 premultiplied by alpha is at most alpha; full alpha keeps it and zero alpha clears it |
| CommonSystem.PremultiplyBounds | os/common/system.h:151-153 | the integer product-then-divide by 255 stays within alpha and is exact at alpha 255 |
| CommonSystem.Rgba24 | os/common/system.h:155-161 | a 24-bit pixel is opaque and its components are the masked fields as they are |
| CommonSystem.Stretch | os/common/system.h:164-166 | a component is stretched to 0..255, its maximum to 255 and 0 to 0 |
| CommonSystem.Rgba16 | os/common/system.h:162-168 | a 16-bit pixel is opaque with every component in 0..255, a full red field giving 255 and an empty one 0 |
| CommonSystem.Word | os/common/system.h:143 | a one-byte word is that byte; longer words are read little-endian |
| CommonSystem.MakeSurface | os/common/system.h:129-200 | no surface exactly when the depth is not 32, 24 or 16 bits; otherwise one row per image row, each the converted pixels of that row |
| CommonSystem.ReadRow | os/common/system.h:184-197 | one row holds, in order, the converted pixel found every bitsPerPixel/8 bytes from the row's start |
| CommonSystem.Premultiplied32 | os/common/system.h:142-154 | in a converted 32-bit image with 8-bit colour fields no colour component exceeds its pixel's alpha |
| CommonSystem.LoadSpriteSheetFont | os/common/system.h:91-100 | no font exactly when the sheet does not load; otherwise the font's glyph table is exactly `Table` of the scaled sheet |
| CommonSystem.Systems.constructor | os/common/system.cpp:18 | at start there is no instance |
| CommonSystem.Systems.Make | os/common/system.cpp:27-50 | the Skia back end is preferred, then the platform's, then the None back end, so a system is always made; it becomes the instance only when there is none |
| CommonSystem.Systems.DestroyInstance | os/common/system.cpp:68-89 | nothing happens unless this system is the instance; then the queue is emptied before the instance is cleared |
| CommonSystem.Systems.Destroy | os/common/system.h:44-49 | the destructor clears the queue and the instance only for the system that is the instance |
| CommonSystem.FirstMadeIsInstance | os/common/system.cpp:27-89 | the first system made stays the instance when a second one is made and destroyed; destroying it clears the queue once and then the instance |

## Left out

- Native windowing, GPU and clipboard calls are inputs, not models: Win32 and WGL/ANGLE context creation, `paintHDC`, `UpdateLayeredWindowIndirect`, `XPutImage`, `XSync`, `select`, `ScreenToClient` and Cocoa. Their effects on pixels and on other processes cannot be stated.
- Skia, HarfBuzz and FreeType are not part of this model. Their effects enter as parameters:
  - a script guess;
  - a shaping function;
  - a fallback-font blob;
  - the FreeType branch's glyph bounds.
- Drawing itself (`draw_text`'s FreeType blitting and blending, the paint code of both Skia windows) is reduced to which boxes are drawn and where.
- Floating-point values (`PointF`, `RectF`, font metrics, baseline offsets, HarfBuzz advances and offsets) are integers. Rounding is not modelled.
- `XInput.XInputState.ConvertExtensionEvent`: the pressure stays the device's integer reading. Its normalisation to a float between 0 and 1, and the key modifiers read from X11, are not modelled.
- `selectExtensionEvents` and `XOpenDevice`/`XCloseDevice` are reduced to the lists of classes and devices they are given.
- Colour spaces are opaque numbers. What a colour space does to pixels is not modelled.
- `DragDataProviderWin::getPaths`, `getImage` and `contains` are not modelled: they read a COM data object.
- `DragDataProviderOSX::getImage` is not modelled: it calls the clipboard library. `base::normalize_path` is a parameter of `OsxDnd.GetPaths`.
- Default `DragTarget` callbacks do nothing. They are modelled as a target that sets no drop result.
- `InterlockedIncrement`/`InterlockedDecrement` reference counting is sequential here. The thread safety of the concurrent event queue is not modelled: the queue is a single-threaded sequence.
- `X11EventQueue.Wait`: a timeout below one millisecond, which the source truncates to 0 ms, is given to the model in whole milliseconds.
- `SpriteSheetFont.FromSurface`: the surface's `getPixel` is a total function here. What the source reads one pixel past the right edge of the sheet is left open.
- `RecentItems`: `size()`, `limit()` and `empty()` are read directly from the class's fields.
- `CommonSystem.MakeSurface`: the destination surface is rows of unpacked colour components.
  - Packing by the surface format's shifts is not modelled.
  - The 24-bit reader loads a whole 32-bit word, so `Readable` demands the byte after the last pixel.
  - Overflow of the unsigned masks in the premultiplication is not modelled.
- `CommonSystem.LoadSpriteSheetFont`: `Surface::applyScale` is a parameter and `setImmutable` is not modelled.
- `CommonSystem.KeyModifiers`: the modifier bit values are taken as Shift 1, Ctrl 2, Alt 4, Cmd 8, Space 16 and Win 32, because `os/keys.h` is not part of this model.
- Members of `CommonSystem` that only return a constant or do nothing are not modelled:
  - `setAppName`, `setAppMode`, `markCliFileAsProcessed`, `finishLaunching`, `activateApp`;
  - `setTabletAPI`, `tabletAPI`, `logger`, `menus`;
  - `nativeDialogs`, `eventQueue`, `loadTrueTypeFont`, `errorMessage`.
- `CommonSystem.Systems.Instance`: the reference counting of `AddRef` is not modelled. The instance is named by a number.
- `SkiaWindowWin`: the GL render target's failure path (the thrown exception) is not modelled.
- `Utf8.Int32`: the 32-bit wrap of a `c << 6` that overflows is the one the compilers produce. C++ before C++20 leaves it undefined, so another build may give another value.
- `SpriteSheetFont.FindGlyph`: once the scan is past the bottom of the sheet, the source leaves `glyphBounds` as it was; the model returns an empty rectangle there, which the callers never read.
- `SpriteTextBlobShaper.MakeWithShaper` widens the text bounds for a fallback blob by the corrected `FallbackBox`, not by the source's `FallbackBoxAsWritten` (see ## Findings). With the source's box, "every drawn box is within the bounds" does not hold.
- `SpriteTextBlobShaper.ShapeFallback` computes the corrected `AfterFallback`, which uses `FallbackBox`; the source's line 157 behaves as `FallbackBoxAsWritten`.
- `SpriteTextBlobShaper.ValidEnd` holds of the corrected bounds only; the same goes for `Fallback`, `ValidStoreFallback` and `ValidFallback`.
- `X11EventQueue.EventQueueX11.GetEvent` decides whether to wait by the corrected `Wait`, not by the source's unsigned `WaitAsWritten` (see ## Findings). With the source's test, a call whose timeout has run out waits again.
- `X11EventQueue.EventQueueX11.CountNative` uses the corrected `Wait` in the same way.
- `HbShaper.HBShaper.Next` requires that HarfBuzz gives no more glyphs than there are code points. With more glyphs, the source's `next()` reads past the code-point vector, and the model does not say what that read returns.
- `TextBlobShaper.MakeWithShaper`: the native shaper is a function of the text alone. What it does with the font, the font manager and the handler's own state is not modelled.
- `DrawText.ChainOk`: the model takes fallback chains without a cycle. The source also finishes on a cyclic chain, because `decode` is not reset at `retry:` (text/draw_text.cpp:158-180), as long as each missing code point is on some font of the chain. When a code point is on no font of a cycle, the inner walk (text/draw_text.cpp:171-172) never ends. This hang follows from reading the code; it was not executed.
- `DrawText.DrawItems`: the `DrawTextDelegate` is a function of the character box. A delegate with state of its own, colours changed by `preProcessChar`, and `postDrawChar` are not modelled.
- `OsxWindowDelegate.WindowDelegate.RemoveImpl`: the delegate's weak reference to the window implementation going null is modelled only as this explicit call.

## Findings

| source | as written | input that shows it | evidently intended | confidence | as-written member | corrected member |
|---|---|---|---|---|---|---|
| text/sprite_text_blob_shaper.cpp:157 | the text bounds take in the fallback blob's own bounds, which start at its local origin, not where the blob is drawn | a sprite glyph 5 wide, then a fallback blob with bounds (0, 0, 7, 10) drawn at x = 5: the bounds end at x = 7, the blob at x = 12 | the blob's bounds moved to its drawing origin, so every run lies within the text bounds | high, not executed | SpriteTextBlobShaper.FallbackBoxAsWrittenMissesBlob | SpriteTextBlobShaper.FallbackBox |
| os/osx/dnd.h:91 | `nsdop` is declared without an initial value before flags are OR-ed into it | a Copy result when the stack slot happens to hold NSDragOperationMove: AppKit is told Copy and Move, and the round trip gives Copy and Move | `nsdop` starts at NSDragOperationNone, so exactly the flags present are set | high, not executed | OsxDnd.AsWrittenRoundTripFails | OsxDnd.NsDragOperationRoundTrip |
| os/x11/event_queue.cpp:111-113 | `timeoutMsecs - elapsedMsecs` is computed in an unsigned tick type, so `> 0` holds whenever the two differ | a 10 ms timeout with 11 ms already elapsed: the wait is 2^64 - 1 ms instead of none | no wait once the timeout has run out | medium, not executed (assumes a 64-bit unsigned tick_t) | X11EventQueue.WaitAsWrittenOverruns | X11EventQueue.Wait |
