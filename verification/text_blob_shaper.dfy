/**
 * text/text_blob_shaper.cpp: `TextBlob::MakeWithShaper`, which picks the
 * shaper by the kind of font.
 *
 * A sprite-sheet font goes to the sprite shaper of this model; a native
 * (Skia) font goes to a shaper this model does not see, the function
 * `native` from the text to the runs it commits to a handler and the blob
 * it returns, if any; `skia` says whether the build has Skia.  FreeType
 * and unknown fonts yield no blob.
 */
module TextBlobShaper {
  import opened Geometry
  import opened Wrappers
  import TextBlob
  import Utf8
  import SpriteSheetFont
  import SpriteTextBlob
  import SpriteTextBlobShaper

  /** text::FontType (text/font.h). */
  datatype FontType = Unknown | SpriteSheet | FreeType | Native

  /** The blob `MakeWithShaper` returns: a sprite blob, or the blob the native shaper made. */
  datatype Made = SpriteMade(blob: SpriteTextBlob.Blob) | NativeMade(sub: SpriteTextBlob.SubBlob)

  /** Text the sprite font covers: the sprite shaper's blob and handler calls are those of `SpriteTextBlob::Make`. */
  lemma SpriteAgrees(f: SpriteSheetFont.Font, font: nat, text: seq<Utf8.byte>, hasHandler: bool,
                     shape: seq<Utf8.byte> -> SpriteTextBlobShaper.Shaped, fallbackAscent: int)
    ensures var r := SpriteTextBlobShaper.Shaping(SpriteTextBlobShaper.Setup(f, text, shape, fallbackAscent, font, hasHandler));
            var m := SpriteTextBlob.MadeBlob(f, font, text);
            (forall k :: 0 <= k < |Utf8.Items(Utf8.Init(text))| ==>
               SpriteSheetFont.CodePointToGlyph(f, Utf8.Items(Utf8.Init(text))[k].cp) != 0) ==>
              SpriteTextBlob.Blob(r.bounds, font, r.runs) == m &&
              r.log == (if hasHandler then SpriteTextBlob.Visits(font, m.runs) else [])
  {
    var c := SpriteTextBlobShaper.Setup(f, text, shape, fallbackAscent, font, hasHandler);
    if forall k :: 0 <= k < |Utf8.Items(Utf8.Init(text))| ==>
         SpriteSheetFont.CodePointToGlyph(f, Utf8.Items(Utf8.Init(text))[k].cp) != 0 {
      SpriteTextBlobShaper.ShaperAgreesWithMake(c);
    }
  }

  /**
   * TextBlob::MakeWithShaper.  `f` and `font` are the sprite font's table
   * and identity, `shape` and `fallbackAscent` what the sprite shaper needs
   * for its fallback font; `log` is what the handler receives.
   */
  method MakeWithShaper(kind: FontType, skia: bool, native: seq<Utf8.byte> -> SpriteTextBlobShaper.Shaped,
                        f: SpriteSheetFont.Font, font: nat, text: seq<Utf8.byte>, hasHandler: bool,
                        shape: seq<Utf8.byte> -> SpriteTextBlobShaper.Shaped, fallbackAscent: int)
    returns (blob: Option<Made>, log: seq<TextBlob.RunInfo>)
    ensures blob.Some? <==> kind == SpriteSheet || (kind == Native && skia && native(text).blob.Some?)
    ensures kind == SpriteSheet ==>
              var r := SpriteTextBlobShaper.Shaping(SpriteTextBlobShaper.Setup(f, text, shape, fallbackAscent, font, hasHandler));
              blob == Some(SpriteMade(SpriteTextBlob.Blob(r.bounds, font, r.runs))) && log == r.log &&
              SpriteTextBlobShaper.RunsWf(f, text, shape, blob.value.blob.runs) &&
              (!hasHandler ==> log == []) &&
              (hasHandler ==> SpriteTextBlobShaper.IsSubsequence(SpriteTextBlobShaper.OwnInfos(font, blob.value.blob.runs), log))
    ensures kind == SpriteSheet &&
            (forall k :: 0 <= k < |Utf8.Items(Utf8.Init(text))| ==>
               SpriteSheetFont.CodePointToGlyph(f, Utf8.Items(Utf8.Init(text))[k].cp) != 0) ==>
              blob == Some(SpriteMade(SpriteTextBlob.MadeBlob(f, font, text))) &&
              log == (if hasHandler then SpriteTextBlob.Visits(font, SpriteTextBlob.MadeBlob(f, font, text).runs) else [])
    ensures kind == Native && skia ==>
              blob == (if native(text).blob.Some? then Some(NativeMade(native(text).blob.value)) else None) &&
              log == (if hasHandler then native(text).committed else [])
    ensures kind == FreeType || kind == Unknown || (kind == Native && !skia) ==> log == []
  {
    log := [];
    match kind {
      case SpriteSheet =>
        var b;
        b, log := SpriteTextBlobShaper.MakeWithShaper(f, font, text, hasHandler, shape, fallbackAscent);
        blob := Some(SpriteMade(b));
        SpriteAgrees(f, font, text, hasHandler, shape, fallbackAscent);
      case FreeType =>
        blob := None;
      case Native =>
        if skia {
          var shaped := native(text);
          blob := if shaped.blob.Some? then Some(NativeMade(shaped.blob.value)) else None;
          log := if hasHandler then shaped.committed else [];
        } else {
          blob := None;
        }
      case Unknown =>
        blob := None;
    }
  }
}
