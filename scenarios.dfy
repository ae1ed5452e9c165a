/**
 * A complete decode of a minimal font with one 8 by 8 glyph, stated for any
 * file whose lines tokenize as that font's do, and the same file without
 * its closing `ENDFONT`. The glyph's image is the one `Bitmap.BitmapOf`
 * reads from the eight lines after `BITMAP`; what such rows decode to is
 * stated by `Bitmap.DecodeFullRow` and `Bitmap.DecodeFrameRow`.
 */
module Scenarios {
  import opened Wrappers
  import opened Keywords
  import Tokenizer
  import Numerals
  import Bitmap
  import opened Decoder
  import DecoderProperties

  const Box8 := BoundingBox(8, 8, 0, 0)

  /** The glyph the file describes: its image is read from lines 5 to 12. */
  function FrameGlyph(lines: seq<string>): Glyph {
    DefaultGlyph.(name := "frame", boundingBox := Box8, bitmap := Bitmap.BitmapOf(lines, 5, 8, 8))
  }

  /** A keyword followed by the four fields 8, 8, 0 and 0, as `stoi` reads them. */
  predicate BoxRecord(tokens: seq<string>) {
    && |tokens| == 5
    && Numerals.ParseInt(tokens[1]) == Some(8) && Numerals.ParseInt(tokens[2]) == Some(8)
    && Numerals.ParseInt(tokens[3]) == Some(0) && Numerals.ParseInt(tokens[4]) == Some(0)
  }

  /**
   * The records of the file, line by line: `STARTFONT 2.1`,
   * `FONTBOUNDINGBOX 8 8 0 0`, `STARTCHAR frame`, `BBX 8 8 0 0`, `BITMAP`,
   * eight row lines of any content, and `ENDCHAR`.
   */
  predicate FrameLines(lines: seq<string>) {
    && |lines| >= 14
    && Tokenizer.Tokens(lines[0]) == ["STARTFONT", "2.1"]
    && BoxRecord(Tokenizer.Tokens(lines[1])) && Tokenizer.Tokens(lines[1])[0] == "FONTBOUNDINGBOX"
    && Tokenizer.Tokens(lines[2]) == ["STARTCHAR", "frame"]
    && BoxRecord(Tokenizer.Tokens(lines[3])) && Tokenizer.Tokens(lines[3])[0] == "BBX"
    && Tokenizer.Tokens(lines[4]) == ["BITMAP"]
    && Tokenizer.Tokens(lines[13]) == ["ENDCHAR"]
  }

  /** One more field read in front of the ones after it. */
  lemma ArgsFromCons(tokens: seq<string>, from: nat, count: nat, line: nat, v: int, rest: seq<int>)
    requires from < |tokens| && count > 0 && Numerals.ParseInt(tokens[from]) == Some(v)
    requires ArgsFrom(tokens, from + 1, count - 1, line) == Success(rest)
    ensures ArgsFrom(tokens, from, count, line) == Success([v] + rest)
  {
  }

  /** The four fields of a box record. */
  lemma BoxArgs(tokens: seq<string>, line: nat)
    requires BoxRecord(tokens)
    ensures IntArgs(tokens, 4, line) == Success([8, 8, 0, 0])
  {
    assert ArgsFrom(tokens, 5, 0, line) == Success([]);
    ArgsFromCons(tokens, 4, 1, line, 0, []);
    assert [0] + [] == [0];
    ArgsFromCons(tokens, 3, 2, line, 0, [0]);
    assert [0] + [0] == [0, 0];
    ArgsFromCons(tokens, 2, 3, line, 8, [0, 0]);
    assert [8] + [0, 0] == [8, 0, 0];
    ArgsFromCons(tokens, 1, 4, line, 8, [8, 0, 0]);
    assert [8] + [8, 0, 0] == [8, 8, 0, 0];
  }

  // The states after each record of the file.
  const Meta1 := DefaultMetadata.(versionNumber := "2.1")
  const Meta2 := Meta1.(mainBoundingBox := Box8)
  const Named := DefaultGlyph.(name := "frame")
  const Boxed := Named.(boundingBox := Box8)

  function S1(): State { State(Meta1, [], [StartFont], DefaultGlyph, [StartFont]) }
  function S2(): State { State(Meta2, [], [StartFont], DefaultGlyph, [StartFont, FontBoundingBox]) }
  function S3(): State { State(Meta2, [], [StartFont, StartChar], Named, [StartFont, FontBoundingBox, StartChar]) }
  function S4(): State { State(Meta2, [], [StartFont, StartChar], Boxed, [StartFont, FontBoundingBox, StartChar, Bbx]) }
  function S5(lines: seq<string>): State {
    State(Meta2, [], [StartFont, StartChar], FrameGlyph(lines), [StartFont, FontBoundingBox, StartChar, Bbx, Bitmap])
  }
  function S6(lines: seq<string>): State {
    State(Meta2, [FrameGlyph(lines)], [StartFont], DefaultGlyph,
          [StartFont, FontBoundingBox, StartChar, Bbx, Bitmap, EndChar])
  }
  function S7(lines: seq<string>): State {
    State(Meta2, [FrameGlyph(lines)], [], DefaultGlyph,
          [StartFont, FontBoundingBox, StartChar, Bbx, Bitmap, EndChar, EndFont])
  }

  lemma Turn0(lines: seq<string>)
    ensures Turn(StartFont, ["STARTFONT", "2.1"], lines, 0, Start(DefaultMetadata, [])) == Success((S1(), 1))
  {
    assert [] + [StartFont] == [StartFont];
    assert StackAfter(StartFont, [], 0) == Success([StartFont]);
    assert MetadataAfter(StartFont, ["STARTFONT", "2.1"], 0, DefaultMetadata) == Success(Meta1);
  }

  lemma Turn1(lines: seq<string>, tokens: seq<string>)
    requires |tokens| > 0 && IntArgs(tokens, 4, 1) == Success([8, 8, 0, 0])
    ensures Turn(FontBoundingBox, tokens, lines, 1, S1()) == Success((S2(), 2))
  {
    var a := IntArgs(tokens, 4, 1);
    assert a.value[0] == 8 && a.value[1] == 8 && a.value[2] == 0 && a.value[3] == 0;
    assert BoundingBox(a.value[0], a.value[1], a.value[2], a.value[3]) == Box8;
    assert Meta1.(mainBoundingBox := Box8) == Meta2;
    assert MetadataAfter(FontBoundingBox, tokens, 1, Meta1) == Success(Meta1.(mainBoundingBox := Box8));
    assert StackAfter(FontBoundingBox, [StartFont], 1) == Success([StartFont]);
    assert MetadataAfter(FontBoundingBox, tokens, 1, Meta1) == Success(Meta2);
    assert [StartFont] + [FontBoundingBox] == [StartFont, FontBoundingBox];
  }

  lemma Turn2(lines: seq<string>)
    ensures Turn(StartChar, ["STARTCHAR", "frame"], lines, 2, S2()) == Success((S3(), 3))
  {
    assert [StartFont] + [StartChar] == [StartFont, StartChar];
    assert StackAfter(StartChar, [StartFont], 2) == Success([StartFont, StartChar]);
    assert GlyphAfter(StartChar, ["STARTCHAR", "frame"], lines, 2, Box8, DefaultGlyph) == Success(Named);
    assert [StartFont, FontBoundingBox] + [StartChar] == [StartFont, FontBoundingBox, StartChar];
  }

  lemma Turn3(lines: seq<string>, tokens: seq<string>)
    requires |tokens| > 0 && IntArgs(tokens, 4, 3) == Success([8, 8, 0, 0])
    ensures Turn(Bbx, tokens, lines, 3, S3()) == Success((S4(), 4))
  {
    var a := IntArgs(tokens, 4, 3);
    assert a.value[0] == 8 && a.value[1] == 8 && a.value[2] == 0 && a.value[3] == 0;
    assert BoundingBox(a.value[0], a.value[1], a.value[2], a.value[3]) == Box8;
    assert GlyphAfter(Bbx, tokens, lines, 3, Box8, Named) == Success(Boxed);
    assert [StartFont, FontBoundingBox, StartChar] + [Bbx] == [StartFont, FontBoundingBox, StartChar, Bbx];
  }

  /** `BITMAP` in an 8 pixel high glyph reads the next eight lines and resumes after them. */
  lemma Turn4(lines: seq<string>)
    ensures Turn(Bitmap, ["BITMAP"], lines, 4, S4()) == Success((S5(lines), 13))
  {
    assert Bitmap.Size(8) == 8;
    assert GlyphAfter(Bitmap, ["BITMAP"], lines, 4, Box8, Boxed) == Success(FrameGlyph(lines));
    assert [StartFont, FontBoundingBox, StartChar, Bbx] + [Bitmap] == [StartFont, FontBoundingBox, StartChar, Bbx, Bitmap];
  }

  lemma Turn13(lines: seq<string>)
    ensures Turn(EndChar, ["ENDCHAR"], lines, 13, S5(lines)) == Success((S6(lines), 14))
  {
    assert [StartFont, StartChar][..1] == [StartFont];
    assert StackAfter(EndChar, [StartFont, StartChar], 13) == Success([StartFont]);
    assert [] + [FrameGlyph(lines)] == [FrameGlyph(lines)];
    assert S5(lines).records + [EndChar] == S6(lines).records;
  }

  lemma Turn14(lines: seq<string>)
    ensures Turn(EndFont, ["ENDFONT"], lines, 14, S6(lines)) == Success((S7(lines), 15))
  {
    assert [StartFont][..0] == [];
    assert StackAfter(EndFont, [StartFont], 14) == Success([]);
    assert S6(lines).records + [EndFont] == S7(lines).records;
  }

  // One pair of lemmas per record: the turn at line `i`, and the loop that goes on after it.

  lemma Step0(lines: seq<string>)
    requires |lines| > 0 && Tokenizer.Tokens(lines[0]) == ["STARTFONT", "2.1"]
    ensures Step(lines, 0, Start(DefaultMetadata, [])) == Success((S1(), 1))
  {
    Turn0(lines);
    KeywordClassified(StartFont);
    assert KindOf(lines[0]) == StartFont;
    DecoderProperties.StepTurn(lines, 0, Start(DefaultMetadata, []));
  }

  lemma Line0(lines: seq<string>)
    requires |lines| > 0 && Tokenizer.Tokens(lines[0]) == ["STARTFONT", "2.1"]
    ensures Run(lines, 0, Start(DefaultMetadata, [])) == Run(lines, 1, S1())
  {
    Step0(lines);
    RunStep(lines, 0, Start(DefaultMetadata, []), S1(), 1);
  }

  lemma Step1(lines: seq<string>)
    requires |lines| > 1 && BoxRecord(Tokenizer.Tokens(lines[1])) && Tokenizer.Tokens(lines[1])[0] == "FONTBOUNDINGBOX"
    ensures Step(lines, 1, S1()) == Success((S2(), 2))
  {
    BoxArgs(Tokenizer.Tokens(lines[1]), 1);
    Turn1(lines, Tokenizer.Tokens(lines[1]));
    KeywordClassified(FontBoundingBox);
    assert KindOf(lines[1]) == FontBoundingBox;
    DecoderProperties.StepTurn(lines, 1, S1());
  }

  lemma Line1(lines: seq<string>)
    requires |lines| > 1 && BoxRecord(Tokenizer.Tokens(lines[1])) && Tokenizer.Tokens(lines[1])[0] == "FONTBOUNDINGBOX"
    ensures Run(lines, 1, S1()) == Run(lines, 2, S2())
  {
    Step1(lines);
    RunStep(lines, 1, S1(), S2(), 2);
  }

  lemma Step2(lines: seq<string>)
    requires |lines| > 2 && Tokenizer.Tokens(lines[2]) == ["STARTCHAR", "frame"]
    ensures Step(lines, 2, S2()) == Success((S3(), 3))
  {
    Turn2(lines);
    KeywordClassified(StartChar);
    assert KindOf(lines[2]) == StartChar;
    DecoderProperties.StepTurn(lines, 2, S2());
  }

  lemma Line2(lines: seq<string>)
    requires |lines| > 2 && Tokenizer.Tokens(lines[2]) == ["STARTCHAR", "frame"]
    ensures Run(lines, 2, S2()) == Run(lines, 3, S3())
  {
    Step2(lines);
    RunStep(lines, 2, S2(), S3(), 3);
  }

  lemma Step3(lines: seq<string>)
    requires |lines| > 3 && BoxRecord(Tokenizer.Tokens(lines[3])) && Tokenizer.Tokens(lines[3])[0] == "BBX"
    ensures Step(lines, 3, S3()) == Success((S4(), 4))
  {
    BoxArgs(Tokenizer.Tokens(lines[3]), 3);
    Turn3(lines, Tokenizer.Tokens(lines[3]));
    KeywordClassified(Bbx);
    assert KindOf(lines[3]) == Bbx;
    DecoderProperties.StepTurn(lines, 3, S3());
  }

  lemma Line3(lines: seq<string>)
    requires |lines| > 3 && BoxRecord(Tokenizer.Tokens(lines[3])) && Tokenizer.Tokens(lines[3])[0] == "BBX"
    ensures Run(lines, 3, S3()) == Run(lines, 4, S4())
  {
    Step3(lines);
    RunStep(lines, 3, S3(), S4(), 4);
  }

  lemma Step4(lines: seq<string>)
    requires |lines| > 4 && Tokenizer.Tokens(lines[4]) == ["BITMAP"]
    ensures Step(lines, 4, S4()) == Success((S5(lines), 13))
  {
    Turn4(lines);
    KeywordClassified(Bitmap);
    assert KindOf(lines[4]) == Bitmap;
    DecoderProperties.StepTurn(lines, 4, S4());
  }

  lemma Line4(lines: seq<string>)
    requires |lines| > 4 && Tokenizer.Tokens(lines[4]) == ["BITMAP"]
    ensures Run(lines, 4, S4()) == Run(lines, 13, S5(lines))
  {
    Step4(lines);
    RunStep(lines, 4, S4(), S5(lines), 13);
  }

  lemma Step13(lines: seq<string>)
    requires |lines| > 13 && Tokenizer.Tokens(lines[13]) == ["ENDCHAR"]
    ensures Step(lines, 13, S5(lines)) == Success((S6(lines), 14))
  {
    Turn13(lines);
    KeywordClassified(EndChar);
    assert KindOf(lines[13]) == EndChar;
    DecoderProperties.StepTurn(lines, 13, S5(lines));
  }

  lemma Line13(lines: seq<string>)
    requires |lines| > 13 && Tokenizer.Tokens(lines[13]) == ["ENDCHAR"]
    ensures Run(lines, 13, S5(lines)) == Run(lines, 14, S6(lines))
  {
    Step13(lines);
    RunStep(lines, 13, S5(lines), S6(lines), 14);
  }

  lemma Step14(lines: seq<string>)
    requires |lines| > 14 && Tokenizer.Tokens(lines[14]) == ["ENDFONT"]
    ensures Step(lines, 14, S6(lines)) == Success((S7(lines), 15))
  {
    Turn14(lines);
    KeywordClassified(EndFont);
    assert KindOf(lines[14]) == EndFont;
    DecoderProperties.StepTurn(lines, 14, S6(lines));
  }

  lemma Line14(lines: seq<string>)
    requires |lines| > 14 && Tokenizer.Tokens(lines[14]) == ["ENDFONT"]
    ensures Run(lines, 14, S6(lines)) == Run(lines, 15, S7(lines))
  {
    Step14(lines);
    RunStep(lines, 14, S6(lines), S7(lines), 15);
  }

  /** A file of this shape runs through its first fourteen lines to the state after `ENDCHAR`. */
  lemma RunToEndChar(lines: seq<string>)
    requires FrameLines(lines)
    ensures Run(lines, 0, Start(DefaultMetadata, [])) == Run(lines, 14, S6(lines))
  {
    Line0(lines);
    Line1(lines);
    Line2(lines);
    Line3(lines);
    Line4(lines);
    Line13(lines);
  }

  /**
   * The file followed by `ENDFONT` decodes: the header's bounding box is
   * recorded, the one glyph carries its name, its box and the image of
   * lines 5 to 12, and every opened section is closed.
   */
  lemma FrameFontDecodes(lines: seq<string>)
    requires FrameLines(lines) && |lines| == 15 && Tokenizer.Tokens(lines[14]) == ["ENDFONT"]
    ensures Decode(lines, DefaultMetadata, []) == Success(S7(lines))
  {
    RunToEndChar(lines);
    Line14(lines);
  }

  /** The row text `FF`, read by the decoder and by the source alike, is a full row of an 8-pixel glyph. */
  lemma FullRowText()
    ensures Numerals.ParseHexRow("FF") == Numerals.ParseHexRowAsWritten("FF") == 0xFF
    ensures Bitmap.DecodeRow(Numerals.ParseHexRow("FF"), 8) == [true, true, true, true, true, true, true, true]
  {
    assert Numerals.Format(0xFF, 16) == "FF";
    Numerals.ParseHexRowOfFormat(0xFF);
    Numerals.RowReadsAgree("FF");
    Bitmap.DecodeFullRow();
  }

  /** The row text `81`, read by the decoder and by the source alike, is the two edge pixels of an 8-pixel glyph. */
  lemma FrameRowText()
    ensures Numerals.ParseHexRow("81") == Numerals.ParseHexRowAsWritten("81") == 0x81
    ensures Bitmap.DecodeRow(Numerals.ParseHexRow("81"), 8) == [true, false, false, false, false, false, false, true]
  {
    assert Numerals.Format(0x81, 16) == "81";
    Numerals.ParseHexRowOfFormat(0x81);
    Numerals.RowReadsAgree("81");
    Bitmap.DecodeFrameRow();
  }

  /** The row text `00`, read by the decoder and by the source alike, is an empty row of an 8-pixel glyph. */
  lemma EmptyRowText()
    ensures Numerals.ParseHexRow("00") == Numerals.ParseHexRowAsWritten("00") == 0
    ensures Bitmap.DecodeRow(Numerals.ParseHexRow("00"), 8) == [false, false, false, false, false, false, false, false]
  {
    var row := "00";
    assert Numerals.SkipSpace(row) == row && Numerals.Sign(row) == (false, row);
    assert Numerals.HexBody(row) == row;
    assert Numerals.DigitRun(row[1..], 16) == 1;
    assert Numerals.DigitRun(row, 16) == 2 && row[..2] == row;
    assert row[..1] == "0" && Numerals.Value("0", 16) == 0;
    assert Numerals.HexMagnitude(row) == (false, 0);
    Numerals.RowReadsAgree(row);
    Bitmap.DecodeEmptyRow();
  }

  /** Without a closing `ENDFONT` the file is rejected as unterminated. */
  lemma UnterminatedFails(lines: seq<string>)
    requires FrameLines(lines) && |lines| == 14
    ensures Decode(lines, DefaultMetadata, []) == Failure(Unclosed)
  {
    RunToEndChar(lines);
  }
}
