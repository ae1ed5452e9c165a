/**
 * The `ofxBDF` object: its `metadata` and `chars` fields, and
 * `parseInputFile`, which fills them from the lines of a font file.
 */
module BdfFont {
  import opened Wrappers
  import opened Keywords
  import Tokenizer
  import Bitmap
  import opened Decoder

  /**
   * The cases of the switch that set one font-wide field from the record's
   * tokens: `FONT`, `SIZE`, `FONTBOUNDINGBOX`, `FONT_DESCENT`,
   * `FONT_ASCENT`, `DEFAULT_CHAR` and `CHARS`.
   */
  method ReadFontField(d: Declaration, tokens: seq<string>, i: nat, m: Metadata) returns (error: Option<DecodeError>, m': Metadata)
    requires |tokens| > 0 && d in {Font, Size, FontBoundingBox, FontDescent, FontAscent, DefaultChar, Chars}
    ensures MetadataAfter(d, tokens, i, m) == if error.None? then Success(m') else Failure(error.value)
  {
    error, m' := None, m;
    if d == Font {
      if |tokens| < 2 {
        error := Some(MissingToken(i));
      } else {
        m' := m.(name := tokens[1]);
      }
      return;
    }
    var count := if d == Size then 3 else if d == FontBoundingBox then 4 else 1;
    var a := IntArgs(tokens, count, i);
    if a.Failure? {
      return Some(a.error), m;
    }
    match d {
      case Size => m' := m.(size := a.value[0], xDpi := a.value[1], yDpi := a.value[2]);
      case FontBoundingBox => m' := m.(mainBoundingBox := BoundingBox(a.value[0], a.value[1], a.value[2], a.value[3]));
      case FontDescent => m' := m.(fontDescent := a.value[0]);
      case FontAscent => m' := m.(fontAscent := a.value[0]);
      case DefaultChar => m' := m.(defaultChar := a.value[0]);
      case Chars => m' := m.(numberOfChars := a.value[0]);
    }
  }

  /**
   * The cases of the switch that set fields of the working glyph from the
   * record's tokens: `ENCODING`, `SWIDTH`, `DWIDTH` and `BBX`, which keeps
   * the font's main box `main` when the glyph's box equals it.
   */
  method ReadGlyphField(d: Declaration, tokens: seq<string>, i: nat, main: BoundingBox, g: Glyph) returns (error: Option<DecodeError>, g': Glyph)
    requires |tokens| > 0 && d in {Encoding, SWidth, DWidth, Bbx}
    ensures forall lines :: GlyphAfter(d, tokens, lines, i, main, g) == if error.None? then Success(g') else Failure(error.value)
  {
    var count := if d == Encoding then 1 else if d == Bbx then 4 else 2;
    var a := IntArgs(tokens, count, i);
    if a.Failure? {
      return Some(a.error), g;
    }
    error := None;
    match d {
      case Encoding => g' := g.(code := a.value[0]);
      case SWidth => g' := g.(scalableWidthX := a.value[0], scalableWidthY := a.value[1]);
      case DWidth => g' := g.(deviceWidthX := a.value[0], deviceWidthY := a.value[1]);
      case Bbx =>
        var box := BoundingBox(a.value[0], a.value[1], a.value[2], a.value[3]);
        if main == box {
          g' := g.(boundingBox := main);
        } else {
          g' := g.(boundingBox := box);
        }
    }
  }

  class Font {
    var metadata: Metadata
    var chars: seq<Glyph>

    constructor ()
      ensures metadata == DefaultMetadata && chars == []
    {
      metadata := DefaultMetadata;
      chars := [];
    }

    /**
     * The switch on the record's kind `d`, with the declaration stack and
     * the working glyph that `parseInputFile` keeps in local variables:
     * the new values, the line to go on at, or the fatal condition.
     */
    method ParseRecord(d: Declaration, tokens: seq<string>, lines: seq<string>, i: nat,
                       declarations: seq<Declaration>, currentChar: Glyph, ghost records: seq<Declaration>)
      returns (error: Option<DecodeError>, declarations': seq<Declaration>, currentChar': Glyph, next: nat)
      requires |tokens| > 0 && i < |lines|
      modifies this
      ensures Outcome(Turn(d, tokens, lines, i, State(old(metadata), old(chars), declarations, currentChar, records)),
                      error, State(metadata, chars, declarations', currentChar', records + [d]), next)
    {
      ghost var step := Turn(d, tokens, lines, i, State(metadata, chars, declarations, currentChar, records));
      declarations', currentChar', next := declarations, currentChar, i + 1;
      error := None;
      match d {
        case StartFont =>
          declarations' := declarations' + [d];
          if |tokens| < 2 {
            error := Some(MissingToken(i));
          } else {
            metadata := metadata.(versionNumber := tokens[1]);
          }
          assert Outcome(step, error, State(metadata, chars, declarations', currentChar', records + [d]), next);
        case Font | Size | FontBoundingBox | FontDescent | FontAscent | DefaultChar | Chars =>
          error, metadata := ReadFontField(d, tokens, i, metadata);
          assert Outcome(step, error, State(metadata, chars, declarations', currentChar', records + [d]), next);
        case StartProperties =>
          declarations' := declarations' + [d];
          assert Outcome(step, error, State(metadata, chars, declarations', currentChar', records + [d]), next);
        case EndProperties =>
          if declarations' == [] {
            error := Some(StackUnderflow(i));
          } else {
            declarations' := declarations'[..|declarations'| - 1];
          }
          assert Outcome(step, error, State(metadata, chars, declarations', currentChar', records + [d]), next);
        case StartChar =>
          declarations' := declarations' + [d];
          if |tokens| < 2 {
            error := Some(MissingToken(i));
          } else {
            currentChar' := currentChar'.(name := tokens[1]);
          }
          assert Outcome(step, error, State(metadata, chars, declarations', currentChar', records + [d]), next);
        case Encoding | SWidth | DWidth | Bbx =>
          error, currentChar' := ReadGlyphField(d, tokens, i, metadata.mainBoundingBox, currentChar');
          assert Outcome(step, error, State(metadata, chars, declarations', currentChar', records + [d]), next);
        case Bitmap =>
          var image;
          image, next := Bitmap.ReadBitmap(lines, i + 1, currentChar'.boundingBox.width, currentChar'.boundingBox.height);
          currentChar' := currentChar'.(bitmap := image);
          assert Outcome(step, error, State(metadata, chars, declarations', currentChar', records + [d]), next);
        case EndChar =>
          if declarations' == [] {
            error := Some(StackUnderflow(i));
          } else {
            declarations' := declarations'[..|declarations'| - 1];
            chars := chars + [currentChar'];
            currentChar' := DefaultGlyph;
          }
          assert Outcome(step, error, State(metadata, chars, declarations', currentChar', records + [d]), next);
        case EndFont =>
          if declarations' == [] {
            error := Some(StackUnderflow(i));
          } else {
            declarations' := declarations'[..|declarations'| - 1];
          }
          assert Outcome(step, error, State(metadata, chars, declarations', currentChar', records + [d]), next);
        case Unknown =>
          // `warn`: the line is reported and skipped.
          assert Outcome(step, error, State(metadata, chars, declarations', currentChar', records + [d]), next);
      }
    }

    /**
     * `parseInputFile`: one turn of the loop per line, switching on the
     * line's first token. Returns `None` on success, with `metadata` and
     * `chars` as `Decode` says; on a fatal condition the error (the source
     * has undefined behaviour, exits, or lets a `stoi` exception propagate
     * there, so the fields are then left unspecified).
     */
    method ParseInputFile(lines: seq<string>) returns (failure: Option<DecodeError>)
      modifies this
      ensures var r := Decode(lines, old(metadata), old(chars));
              && (failure == None <==> r.Success?)
              && (r.Failure? ==> failure == Some(r.error))
              && (r.Success? ==> metadata == r.value.metadata && chars == r.value.chars)
    {
      var declarations: seq<Declaration> := [];
      var currentChar := DefaultGlyph;
      ghost var records: seq<Declaration> := [];
      ghost var goal := Run(lines, 0, Start(metadata, chars));
      var i := 0;
      while i < |lines|
        invariant Run(lines, i, State(metadata, chars, declarations, currentChar, records)) == goal
        decreases |lines| - i
      {
        ghost var before := State(metadata, chars, declarations, currentChar, records);
        var tokens := Tokenizer.GetTokens(lines[i]);
        if |tokens| == 0 {
          return Some(MissingToken(i));
        }
        var currentDeclaration := ToDeclaration(tokens[0]);
        var error, next;
        error, declarations, currentChar, next := ParseRecord(currentDeclaration, tokens, lines, i, declarations, currentChar, records);
        records := records + [currentDeclaration];
        if error.Some? {
          RunStops(lines, i, before, error.value);
          return error;
        }
        RunStep(lines, i, before, State(metadata, chars, declarations, currentChar, records), next);
        i := next;
      }
      if declarations != [] {
        return Some(Unclosed);
      }
      return None;
    }
  }
}
