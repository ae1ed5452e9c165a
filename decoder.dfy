/**
 * The decoder of `ofxBDF::parseInputFile`, stated as a state machine over
 * the lines of the file: `Step` is one turn of the `while (getline …)` loop,
 * `Run` the loop, `Decode` the loop followed by the final check that every
 * declaration was closed. `BdfFont.ParseInputFile` is proved to compute it.
 */
module Decoder {
  import opened Wrappers
  import opened Keywords
  import Tokenizer
  import Numerals
  import Bitmap

  /** `ofxBDFBoundingBox`: equality is field by field. */
  datatype BoundingBox = BoundingBox(width: int, height: int, x: int, y: int)

  /** `ofxBDFMetadata`: the font-wide fields. */
  datatype Metadata = Metadata(
    versionNumber: string,
    name: string,
    size: int,
    xDpi: int,
    yDpi: int,
    mainBoundingBox: BoundingBox,
    fontDescent: int,
    fontAscent: int,
    defaultChar: int,
    numberOfChars: int)

  /** `ofxBDFChar`: one glyph; `bitmap` holds the rows of the glyph's image. */
  datatype Glyph = Glyph(
    name: string,
    code: int,
    scalableWidthX: int,
    scalableWidthY: int,
    deviceWidthX: int,
    deviceWidthY: int,
    boundingBox: BoundingBox,
    bitmap: seq<seq<bool>>)

  const EmptyBox := BoundingBox(0, 0, 0, 0)
  const DefaultMetadata := Metadata("", "", 0, 0, 0, EmptyBox, 0, 0, 0, 0)
  /** A default-constructed `ofxBDFChar`. */
  const DefaultGlyph := Glyph("", 0, 0, 0, 0, 0, EmptyBox, [])

  /**
   * The fatal conditions, each with the index of the line it occurred on:
   * a record without the tokens it reads, a field `stoi` rejects, a closing
   * record with no open declaration, and declarations left open at the end.
   */
  datatype DecodeError =
    | MissingToken(line: nat)
    | BadInteger(line: nat)
    | StackUnderflow(line: nat)
    | Unclosed

  /**
   * Everything the loop changes: the font's metadata and glyphs, the
   * declaration stack (top last), the working glyph, and the record kinds
   * classified so far (a log kept for the proofs only).
   */
  datatype State = State(
    metadata: Metadata,
    chars: seq<Glyph>,
    declarations: seq<Declaration>,
    current: Glyph,
    records: seq<Declaration>)

  /** The state `parseInputFile` starts in, given the font object's fields. */
  function Start(metadata: Metadata, chars: seq<Glyph>): State {
    State(metadata, chars, [], DefaultGlyph, [])
  }

  predicate Opens(d: Declaration) {
    d == StartFont || d == StartProperties || d == StartChar
  }

  predicate Closes(d: Declaration) {
    d == EndProperties || d == EndChar || d == EndFont
  }

  /**
   * The declaration stack after a sequence of records: openers push, closers
   * pop the top whatever it is, `None` on a pop of the empty stack.
   */
  function Replay(stack: seq<Declaration>, records: seq<Declaration>): Option<seq<Declaration>>
    decreases |records|
  {
    if records == [] then Some(stack)
    else
      var d := records[0];
      if Opens(d) then Replay(stack + [d], records[1..])
      else if Closes(d) then (if stack == [] then None else Replay(stack[..|stack| - 1], records[1..]))
      else Replay(stack, records[1..])
  }

  /** A record sequence in which no close finds the stack empty and nothing is left open. */
  predicate Balanced(records: seq<Declaration>) {
    Replay([], records) == Some([])
  }

  /**
   * `stoi(tokens[1])`, …, `stoi(tokens[count])`, left to right; a missing
   * token or a rejected field is the error (`IntArgsReads`).
   */
  function IntArgs(tokens: seq<string>, count: nat, line: nat): (r: Result<seq<int>, DecodeError>)
    requires |tokens| > 0
    ensures r.Success? ==> |r.value| == count
  {
    ArgsFrom(tokens, 1, count, line)
  }

  function ArgsFrom(tokens: seq<string>, from: nat, count: nat, line: nat): (r: Result<seq<int>, DecodeError>)
    requires from <= |tokens|
    ensures r.Success? ==> |r.value| == count
    decreases count
  {
    if count == 0 then Success([])
    else if from >= |tokens| then Failure(MissingToken(line))
    else match Numerals.ParseInt(tokens[from])
      case None => Failure(BadInteger(line))
      case Some(v) =>
        var rest :- ArgsFrom(tokens, from + 1, count - 1, line);
        Success([v] + rest)
  }

  /**
   * `IntArgs` reads field `k + 1` as its `k`-th value; it fails with the
   * missing-token error exactly when there are too few tokens and otherwise
   * with the bad-integer error on a field `stoi` rejects.
   */
  lemma IntArgsReads(tokens: seq<string>, count: nat, line: nat)
    requires |tokens| > 0
    ensures var r := IntArgs(tokens, count, line);
            && (r.Success? ==> count < |tokens| && forall k :: 1 <= k <= count ==> Numerals.ParseInt(tokens[k]) == Some(r.value[k - 1]))
            && (r.Failure? ==>
                  || (r.error == MissingToken(line) && count >= |tokens|)
                  || (r.error == BadInteger(line) && exists k :: 1 <= k <= count && k < |tokens| && Numerals.ParseInt(tokens[k]).None?))
  {
    ArgsFromValues(tokens, 1, count, line);
    ArgsFromErrors(tokens, 1, count, line);
  }

  /** `IntArgs` succeeds exactly when the record has `count` arguments and `stoi` accepts each of them. */
  lemma IntArgsSucceeds(tokens: seq<string>, count: nat, line: nat)
    requires |tokens| > 0
    ensures IntArgs(tokens, count, line).Success? <==>
            count < |tokens| && forall k :: 1 <= k <= count ==> Numerals.ParseInt(tokens[k]).Some?
  {
    IntArgsReads(tokens, count, line);
  }

  /** A successful `ArgsFrom` holds the parsed fields, in order. */
  lemma {:induction false} ArgsFromValues(tokens: seq<string>, from: nat, count: nat, line: nat)
    requires from <= |tokens|
    ensures var r := ArgsFrom(tokens, from, count, line);
            r.Success? ==> from + count <= |tokens| && forall k :: from <= k < from + count ==> Numerals.ParseInt(tokens[k]) == Some(r.value[k - from])
    decreases count
  {
    var r := ArgsFrom(tokens, from, count, line);
    if r.Success? && count > 0 {
      assert from < |tokens| && Numerals.ParseInt(tokens[from]).Some?;
      var v := Numerals.ParseInt(tokens[from]).value;
      var rest := ArgsFrom(tokens, from + 1, count - 1, line);
      assert rest.Success? && r.value == [v] + rest.value;
      ArgsFromValues(tokens, from + 1, count - 1, line);
      forall k | from <= k < from + count
        ensures Numerals.ParseInt(tokens[k]) == Some(r.value[k - from])
      {
        if k == from {
          assert r.value[0] == v;
        } else {
          assert r.value[k - from] == rest.value[k - (from + 1)];
          assert Numerals.ParseInt(tokens[k]) == Some(rest.value[k - (from + 1)]);
        }
      }
    }
  }

  /** A failing `ArgsFrom` names a missing field or one `stoi` rejects. */
  lemma {:induction false} ArgsFromErrors(tokens: seq<string>, from: nat, count: nat, line: nat)
    requires from <= |tokens|
    ensures var r := ArgsFrom(tokens, from, count, line);
            r.Failure? ==>
              || (r.error == MissingToken(line) && from + count > |tokens|)
              || (r.error == BadInteger(line) && exists k :: from <= k < from + count && k < |tokens| && Numerals.ParseInt(tokens[k]).None?)
    decreases count
  {
    var r := ArgsFrom(tokens, from, count, line);
    if r.Failure? && from < |tokens| {
      if Numerals.ParseInt(tokens[from]).None? {
        assert r.error == BadInteger(line);
      } else {
        ArgsFromErrors(tokens, from + 1, count - 1, line);
        assert r.error == ArgsFrom(tokens, from + 1, count - 1, line).error;
      }
    }
  }

  /** The stack after closing the top declaration of the record on line `line`. */
  function Pop(stack: seq<Declaration>, line: nat): Result<seq<Declaration>, DecodeError> {
    if stack == [] then Failure(StackUnderflow(line)) else Success(stack[..|stack| - 1])
  }

  /** The record kind of the line `line`, `Unknown` for a line without tokens. */
  function KindOf(line: string): Declaration {
    var tokens := Tokenizer.Tokens(line);
    if tokens == [] then Unknown else ToDeclaration(tokens[0])
  }

  /**
   * The declaration stack after record `d` on line `line`: openers push
   * their kind, closers pop the top whatever it is, the rest leave it.
   */
  function StackAfter(d: Declaration, stack: seq<Declaration>, line: nat): Result<seq<Declaration>, DecodeError> {
    if Opens(d) then Success(stack + [d])
    else if Closes(d) then Pop(stack, line)
    else Success(stack)
  }

  /** The font's metadata after record `d` with `tokens` on line `line`. */
  function MetadataAfter(d: Declaration, tokens: seq<string>, line: nat, m: Metadata): Result<Metadata, DecodeError>
    requires |tokens| > 0
  {
    match d
    case StartFont =>
      if |tokens| < 2 then Failure(MissingToken(line)) else Success(m.(versionNumber := tokens[1]))
    case Font =>
      if |tokens| < 2 then Failure(MissingToken(line)) else Success(m.(name := tokens[1]))
    case Size =>
      var a :- IntArgs(tokens, 3, line);
      Success(m.(size := a[0], xDpi := a[1], yDpi := a[2]))
    case FontBoundingBox =>
      var a :- IntArgs(tokens, 4, line);
      Success(m.(mainBoundingBox := BoundingBox(a[0], a[1], a[2], a[3])))
    case FontDescent =>
      var a :- IntArgs(tokens, 1, line);
      Success(m.(fontDescent := a[0]))
    case FontAscent =>
      var a :- IntArgs(tokens, 1, line);
      Success(m.(fontAscent := a[0]))
    case DefaultChar =>
      var a :- IntArgs(tokens, 1, line);
      Success(m.(defaultChar := a[0]))
    case Chars =>
      var a :- IntArgs(tokens, 1, line);
      Success(m.(numberOfChars := a[0]))
    case _ => Success(m)
  }

  /**
   * The working glyph after record `d` with `tokens` on line `i`, given the
   * font's main box `main`: `BBX` keeps the main box when it is equal,
   * `BITMAP` decodes the rows that follow, `ENDCHAR` resets the glyph.
   */
  function GlyphAfter(d: Declaration, tokens: seq<string>, lines: seq<string>, i: nat, main: BoundingBox, g: Glyph): Result<Glyph, DecodeError>
    requires |tokens| > 0
  {
    match d
    case StartChar =>
      if |tokens| < 2 then Failure(MissingToken(i)) else Success(g.(name := tokens[1]))
    case Encoding =>
      var a :- IntArgs(tokens, 1, i);
      Success(g.(code := a[0]))
    case SWidth =>
      var a :- IntArgs(tokens, 2, i);
      Success(g.(scalableWidthX := a[0], scalableWidthY := a[1]))
    case DWidth =>
      var a :- IntArgs(tokens, 2, i);
      Success(g.(deviceWidthX := a[0], deviceWidthY := a[1]))
    case Bbx =>
      var a :- IntArgs(tokens, 4, i);
      var box := BoundingBox(a[0], a[1], a[2], a[3]);
      Success(g.(boundingBox := if main == box then main else box))
    case Bitmap =>
      Success(g.(bitmap := Bitmap.BitmapOf(lines, i + 1, g.boundingBox.width, g.boundingBox.height)))
    case EndChar => Success(DefaultGlyph)
    case _ => Success(g)
  }

  /** The line after record `d` on line `i`: past the glyph's rows after `BITMAP`. */
  function NextLine(d: Declaration, i: nat, g: Glyph): (next: nat)
    ensures i < next
  {
    if d == Bitmap then i + 1 + Bitmap.Size(g.boundingBox.height) else i + 1
  }

  /**
   * One turn of the loop on line `i`: a line without tokens is fatal,
   * otherwise its first token classifies the record (`Turn`).
   */
  function Step(lines: seq<string>, i: nat, st: State): (r: Result<(State, nat), DecodeError>)
    requires i < |lines|
    ensures r.Success? ==> i < r.value.1
  {
    var tokens := Tokenizer.Tokens(lines[i]);
    if tokens == [] then Failure(MissingToken(i)) else Turn(ToDeclaration(tokens[0]), tokens, lines, i, st)
  }

  /**
   * The record of kind `d` with `tokens` on line `i`, field by field: the
   * kind is logged, then the stack, the metadata and the working glyph are
   * updated (each kind can fail in at most one of them), `ENDCHAR` appends
   * the working glyph, and the loop goes on at `NextLine`.
   */
  function Turn(d: Declaration, tokens: seq<string>, lines: seq<string>, i: nat, st: State): (r: Result<(State, nat), DecodeError>)
    requires |tokens| > 0
    ensures r.Success? ==> i < r.value.1
  {
    var stack :- StackAfter(d, st.declarations, i);
    var metadata :- MetadataAfter(d, tokens, i, st.metadata);
    var current :- GlyphAfter(d, tokens, lines, i, st.metadata.mainBoundingBox, st.current);
    var chars := if d == EndChar then st.chars + [st.current] else st.chars;
    Success((State(metadata, chars, stack, current, st.records + [d]), NextLine(d, i, st.current)))
  }

  /** The loop from line `i` on. */
  function Run(lines: seq<string>, i: nat, st: State): Result<State, DecodeError>
    decreases |lines| - i
  {
    if i >= |lines| then Success(st)
    else
      var (st', next) :- Step(lines, i, st);
      Run(lines, next, st')
  }

  /** A turn of the loop ended with `error`, or with state `st` and next line `next`, as `r` says. */
  predicate Outcome(r: Result<(State, nat), DecodeError>, error: Option<DecodeError>, st: State, next: nat) {
    if error.Some? then r == Failure(error.value) else r == Success((st, next))
  }

  /** A turn that succeeds hands the rest of the loop the new state. */
  lemma RunStep(lines: seq<string>, i: nat, st: State, st': State, next: nat)
    requires i < |lines| && Step(lines, i, st) == Success((st', next))
    ensures Run(lines, i, st) == Run(lines, next, st')
  {
  }

  /** A loop that succeeds from line `i` took a successful turn there. */
  lemma RunUnfold(lines: seq<string>, i: nat, st: State)
    requires i < |lines| && Run(lines, i, st).Success?
    ensures Step(lines, i, st).Success?
    ensures Run(lines, i, st) == Run(lines, Step(lines, i, st).value.1, Step(lines, i, st).value.0)
  {
  }

  /** A turn that fails ends the loop with its error. */
  lemma RunStops(lines: seq<string>, i: nat, st: State, e: DecodeError)
    requires i < |lines| && Step(lines, i, st) == Failure(e)
    ensures Run(lines, i, st) == Failure(e)
  {
  }

  /** `parseInputFile`: the loop, then the check that no declaration is left open. */
  function Decode(lines: seq<string>, metadata: Metadata, chars: seq<Glyph>): Result<State, DecodeError> {
    var final :- Run(lines, 0, Start(metadata, chars));
    if final.declarations != [] then Failure(Unclosed) else Success(final)
  }
}

/** Properties of one turn of the loop and of the whole decode. */
module DecoderProperties {
  import opened Wrappers
  import opened Keywords
  import Tokenizer
  import Numerals
  import Bitmap
  import opened Decoder

  /** A line without tokens is fatal. */
  lemma StepNoTokens(lines: seq<string>, i: nat, st: State)
    requires i < |lines| && Tokenizer.Tokens(lines[i]) == []
    ensures Step(lines, i, st) == Failure(MissingToken(i))
  {
  }

  /** A line with tokens is the record its first token classifies. */
  lemma StepTurn(lines: seq<string>, i: nat, st: State)
    requires i < |lines| && Tokenizer.Tokens(lines[i]) != []
    ensures Step(lines, i, st) == Turn(KindOf(lines[i]), Tokenizer.Tokens(lines[i]), lines, i, st)
  {
  }

  /** Every record adds its kind to the log, and only that. */
  lemma TurnRecords(d: Declaration, tokens: seq<string>, lines: seq<string>, i: nat, st: State)
    requires |tokens| > 0 && Turn(d, tokens, lines, i, st).Success?
    ensures Turn(d, tokens, lines, i, st).value.0.records == st.records + [d]
  {
  }

  /**
   * Stack discipline: `STARTFONT`, `STARTPROPERTIES` and `STARTCHAR` push
   * their kind, `ENDPROPERTIES`, `ENDCHAR` and `ENDFONT` pop the top without
   * looking at it, and no other record touches the stack.
   */
  lemma TurnStack(d: Declaration, tokens: seq<string>, lines: seq<string>, i: nat, st: State)
    requires |tokens| > 0 && Turn(d, tokens, lines, i, st).Success?
    ensures var after := Turn(d, tokens, lines, i, st).value.0.declarations;
            && (Opens(d) ==> after == st.declarations + [d])
            && (Closes(d) ==> |st.declarations| > 0 && after == st.declarations[..|st.declarations| - 1])
            && (!Opens(d) && !Closes(d) ==> after == st.declarations)
            && Replay(st.declarations, [d]) == Some(after)
  {
  }

  /** A closing record on an empty stack is the underflow error. */
  lemma TurnUnderflow(d: Declaration, tokens: seq<string>, lines: seq<string>, i: nat, st: State)
    requires |tokens| > 0 && Closes(d) && st.declarations == []
    ensures Turn(d, tokens, lines, i, st) == Failure(StackUnderflow(i))
  {
  }

  /**
   * `ENDCHAR` appends the working glyph as the last glyph and resets it;
   * every other record leaves the glyph list as it was.
   */
  lemma TurnGlyphs(d: Declaration, tokens: seq<string>, lines: seq<string>, i: nat, st: State)
    requires |tokens| > 0 && Turn(d, tokens, lines, i, st).Success?
    ensures var after := Turn(d, tokens, lines, i, st).value.0;
            && (d == EndChar ==> after.chars == st.chars + [st.current] && after.current == DefaultGlyph)
            && (d != EndChar ==> after.chars == st.chars)
  {
  }

  /** An unrecognised record changes nothing but the log. */
  lemma TurnUnknown(tokens: seq<string>, lines: seq<string>, i: nat, st: State)
    requires |tokens| > 0
    ensures Turn(Unknown, tokens, lines, i, st) == Success((st.(records := st.records + [Unknown]), i + 1))
  {
  }

  /**
   * `BITMAP` replaces only the working glyph's image, by the rows decoded
   * from the next `height` lines (none when the height is not positive),
   * and the loop goes on after those lines.
   */
  lemma TurnBitmap(tokens: seq<string>, lines: seq<string>, i: nat, st: State)
    requires |tokens| > 0
    ensures var g := st.current;
            var image := Bitmap.BitmapOf(lines, i + 1, g.boundingBox.width, g.boundingBox.height);
            Turn(Bitmap, tokens, lines, i, st) == Success((st.(current := g.(bitmap := image), records := st.records + [Bitmap]),
                                                           i + 1 + Bitmap.Size(g.boundingBox.height)))
  {
  }

  /**
   * After `BBX w h x y` the glyph's box is field for field the four parsed
   * integers, whether or not it equals the font's main box.
   */
  lemma TurnBbx(tokens: seq<string>, lines: seq<string>, i: nat, st: State)
    requires |tokens| > 0 && Turn(Bbx, tokens, lines, i, st).Success?
    ensures var box := Turn(Bbx, tokens, lines, i, st).value.0.current.boundingBox;
            && |tokens| >= 5
            && Numerals.ParseInt(tokens[1]) == Some(box.width)
            && Numerals.ParseInt(tokens[2]) == Some(box.height)
            && Numerals.ParseInt(tokens[3]) == Some(box.x)
            && Numerals.ParseInt(tokens[4]) == Some(box.y)
            && Turn(Bbx, tokens, lines, i, st).value.0.current == st.current.(boundingBox := box)
  {
    var a := IntArgs(tokens, 4, i);
    assert a.Success?;
    var box := BoundingBox(a.value[0], a.value[1], a.value[2], a.value[3]);
    assert Turn(Bbx, tokens, lines, i, st) == Success((st.(current := st.current.(boundingBox := box), records := st.records + [Bbx]), i + 1));
    IntArgsReads(tokens, 4, i);
    assert Numerals.ParseInt(tokens[1]) == Some(a.value[0]);
    assert Numerals.ParseInt(tokens[2]) == Some(a.value[1]);
    assert Numerals.ParseInt(tokens[3]) == Some(a.value[2]);
    assert Numerals.ParseInt(tokens[4]) == Some(a.value[3]);
  }

  /** `STARTFONT v` opens the font and records `v` as the version; without `v` it is fatal. */
  lemma TurnStartFont(tokens: seq<string>, lines: seq<string>, i: nat, st: State)
    requires |tokens| > 0
    ensures var r := Turn(StartFont, tokens, lines, i, st);
            && (r.Success? <==> |tokens| >= 2)
            && (r.Failure? ==> r.error == MissingToken(i))
            && (r.Success? ==> r.value == (st.(metadata := st.metadata.(versionNumber := tokens[1]),
                                               declarations := st.declarations + [StartFont],
                                               records := st.records + [StartFont]), i + 1))
  {
  }

  /** `FONT n` records `n` as the font's name and changes nothing else; without `n` it is fatal. */
  lemma TurnFont(tokens: seq<string>, lines: seq<string>, i: nat, st: State)
    requires |tokens| > 0
    ensures var r := Turn(Font, tokens, lines, i, st);
            && (r.Success? <==> |tokens| >= 2)
            && (r.Failure? ==> r.error == MissingToken(i))
            && (r.Success? ==> r.value == (st.(metadata := st.metadata.(name := tokens[1]), records := st.records + [Font]), i + 1))
  {
  }

  /**
   * `SIZE p x y` succeeds exactly when its three fields are integers; the
   * point size and the two resolutions are then those integers, in order,
   * and nothing else changes.
   */
  lemma TurnSize(tokens: seq<string>, lines: seq<string>, i: nat, st: State)
    requires |tokens| > 0
    ensures var r := Turn(Size, tokens, lines, i, st);
            && (r.Success? <==> |tokens| >= 4 && forall k :: 1 <= k <= 3 ==> Numerals.ParseInt(tokens[k]).Some?)
            && (r.Success? ==>
                  var m := r.value.0.metadata;
                  && Numerals.ParseInt(tokens[1]) == Some(m.size)
                  && Numerals.ParseInt(tokens[2]) == Some(m.xDpi)
                  && Numerals.ParseInt(tokens[3]) == Some(m.yDpi)
                  && m == st.metadata.(size := m.size, xDpi := m.xDpi, yDpi := m.yDpi)
                  && r.value == (st.(metadata := m, records := st.records + [Size]), i + 1))
  {
    var a := IntArgs(tokens, 3, i);
    IntArgsSucceeds(tokens, 3, i);
    IntArgsReads(tokens, 3, i);
    if a.Success? {
      assert Numerals.ParseInt(tokens[1]) == Some(a.value[0]);
      assert Numerals.ParseInt(tokens[2]) == Some(a.value[1]);
      assert Numerals.ParseInt(tokens[3]) == Some(a.value[2]);
    }
  }

  /**
   * `FONTBOUNDINGBOX w h x y` succeeds exactly when its four fields are
   * integers; the font's main box is then, field by field, those integers,
   * and nothing else changes.
   */
  lemma TurnFontBoundingBox(tokens: seq<string>, lines: seq<string>, i: nat, st: State)
    requires |tokens| > 0
    ensures var r := Turn(FontBoundingBox, tokens, lines, i, st);
            && (r.Success? <==> |tokens| >= 5 && forall k :: 1 <= k <= 4 ==> Numerals.ParseInt(tokens[k]).Some?)
            && (r.Success? ==>
                  var box := r.value.0.metadata.mainBoundingBox;
                  && Numerals.ParseInt(tokens[1]) == Some(box.width)
                  && Numerals.ParseInt(tokens[2]) == Some(box.height)
                  && Numerals.ParseInt(tokens[3]) == Some(box.x)
                  && Numerals.ParseInt(tokens[4]) == Some(box.y)
                  && r.value == (st.(metadata := st.metadata.(mainBoundingBox := box), records := st.records + [FontBoundingBox]), i + 1))
  {
    var a := IntArgs(tokens, 4, i);
    IntArgsSucceeds(tokens, 4, i);
    IntArgsReads(tokens, 4, i);
    if a.Success? {
      assert Numerals.ParseInt(tokens[1]) == Some(a.value[0]);
      assert Numerals.ParseInt(tokens[2]) == Some(a.value[1]);
      assert Numerals.ParseInt(tokens[3]) == Some(a.value[2]);
      assert Numerals.ParseInt(tokens[4]) == Some(a.value[3]);
    }
  }

  /**
   * `FONT_DESCENT`, `FONT_ASCENT`, `DEFAULT_CHAR` and `CHARS` succeed
   * exactly when their field is an integer; each then stores that integer
   * in its own metadata field, and nothing else changes.
   */
  lemma TurnMetadataScalar(d: Declaration, tokens: seq<string>, lines: seq<string>, i: nat, st: State)
    requires |tokens| > 0 && d in {FontDescent, FontAscent, DefaultChar, Chars}
    ensures var r := Turn(d, tokens, lines, i, st);
            && (r.Success? <==> |tokens| >= 2 && Numerals.ParseInt(tokens[1]).Some?)
            && (r.Success? ==>
                  var v, m := Numerals.ParseInt(tokens[1]).value, st.metadata;
                  && r.value == (st.(metadata := r.value.0.metadata, records := st.records + [d]), i + 1)
                  && (d == FontDescent ==> r.value.0.metadata == m.(fontDescent := v))
                  && (d == FontAscent ==> r.value.0.metadata == m.(fontAscent := v))
                  && (d == DefaultChar ==> r.value.0.metadata == m.(defaultChar := v))
                  && (d == Chars ==> r.value.0.metadata == m.(numberOfChars := v)))
  {
    var a := IntArgs(tokens, 1, i);
    IntArgsSucceeds(tokens, 1, i);
    IntArgsReads(tokens, 1, i);
    if a.Success? {
      assert Numerals.ParseInt(tokens[1]) == Some(a.value[0]);
    }
  }

  /** `STARTCHAR n` opens a glyph and names the working glyph `n`; without `n` it is fatal. */
  lemma TurnStartChar(tokens: seq<string>, lines: seq<string>, i: nat, st: State)
    requires |tokens| > 0
    ensures var r := Turn(StartChar, tokens, lines, i, st);
            && (r.Success? <==> |tokens| >= 2)
            && (r.Failure? ==> r.error == MissingToken(i))
            && (r.Success? ==> r.value == (st.(declarations := st.declarations + [StartChar],
                                               current := st.current.(name := tokens[1]),
                                               records := st.records + [StartChar]), i + 1))
  {
  }

  /**
   * `ENCODING c` succeeds exactly when its field is an integer, and then
   * sets the working glyph's code point to it and nothing else.
   */
  lemma TurnEncoding(tokens: seq<string>, lines: seq<string>, i: nat, st: State)
    requires |tokens| > 0
    ensures var r := Turn(Encoding, tokens, lines, i, st);
            && (r.Success? <==> |tokens| >= 2 && Numerals.ParseInt(tokens[1]).Some?)
            && (r.Success? ==>
                  r.value == (st.(current := st.current.(code := Numerals.ParseInt(tokens[1]).value),
                                  records := st.records + [Encoding]), i + 1))
  {
    var a := IntArgs(tokens, 1, i);
    IntArgsSucceeds(tokens, 1, i);
    IntArgsReads(tokens, 1, i);
    if a.Success? {
      assert Numerals.ParseInt(tokens[1]) == Some(a.value[0]);
    }
  }

  /**
   * `SWIDTH x y` and `DWIDTH x y` succeed exactly when both fields are
   * integers; they then set the glyph's scalable, respectively device,
   * width to those integers in order, and nothing else.
   */
  lemma TurnWidths(d: Declaration, tokens: seq<string>, lines: seq<string>, i: nat, st: State)
    requires |tokens| > 0 && (d == SWidth || d == DWidth)
    ensures var r := Turn(d, tokens, lines, i, st);
            && (r.Success? <==> |tokens| >= 3 && forall k :: 1 <= k <= 2 ==> Numerals.ParseInt(tokens[k]).Some?)
            && (r.Success? ==>
                  var g, wx, wy := st.current, Numerals.ParseInt(tokens[1]).value, Numerals.ParseInt(tokens[2]).value;
                  && r.value == (st.(current := r.value.0.current, records := st.records + [d]), i + 1)
                  && (d == SWidth ==> r.value.0.current == g.(scalableWidthX := wx, scalableWidthY := wy))
                  && (d == DWidth ==> r.value.0.current == g.(deviceWidthX := wx, deviceWidthY := wy)))
  {
    var a := IntArgs(tokens, 2, i);
    IntArgsSucceeds(tokens, 2, i);
    IntArgsReads(tokens, 2, i);
    if a.Success? {
      assert Numerals.ParseInt(tokens[1]) == Some(a.value[0]);
      assert Numerals.ParseInt(tokens[2]) == Some(a.value[1]);
    }
  }

  /** Records inside a glyph, and the structural ones, leave the font's metadata alone. */
  lemma TurnMetadataFrame(d: Declaration, tokens: seq<string>, lines: seq<string>, i: nat, st: State)
    requires |tokens| > 0 && Turn(d, tokens, lines, i, st).Success?
    requires d !in {StartFont, Font, Size, FontBoundingBox, FontDescent, FontAscent, DefaultChar, Chars}
    ensures Turn(d, tokens, lines, i, st).value.0.metadata == st.metadata
  {
  }

  /** The number of `ENDCHAR` records in a log. */
  function GlyphsClosed(records: seq<Declaration>): nat {
    if records == [] then 0 else (if records[0] == EndChar then 1 else 0) + GlyphsClosed(records[1..])
  }

  /** Replaying one record and then the rest is replaying both. */
  lemma ReplayCons(stack: seq<Declaration>, d: Declaration, rest: seq<Declaration>, after: seq<Declaration>)
    requires Replay(stack, [d]) == Some(after)
    ensures Replay(stack, [d] + rest) == Replay(after, rest)
  {
    assert ([d] + rest)[1..] == rest;
    assert [d][1..] == [];
  }

  /**
   * What a successful turn of the loop on line `i` does to the log, the
   * stack and the glyph list, and the state the rest of the loop runs from.
   */
  lemma TurnFacts(lines: seq<string>, i: nat, st: State) returns (st': State, next: nat)
    requires i < |lines| && Run(lines, i, st).Success?
    ensures i < next && Run(lines, i, st) == Run(lines, next, st')
    ensures st'.records == st.records + [KindOf(lines[i])]
    ensures Replay(st.declarations, [KindOf(lines[i])]) == Some(st'.declarations)
    ensures st'.chars == st.chars + (if KindOf(lines[i]) == EndChar then [st.current] else [])
  {
    RunUnfold(lines, i, st);
    st', next := Step(lines, i, st).value.0, Step(lines, i, st).value.1;
    var d, tokens := KindOf(lines[i]), Tokenizer.Tokens(lines[i]);
    StepTurn(lines, i, st);
    TurnRecords(d, tokens, lines, i, st);
    TurnStack(d, tokens, lines, i, st);
    TurnGlyphs(d, tokens, lines, i, st);
  }

  /**
   * `final` is a state the loop can reach from `st`: the log only grew, the
   * stack is the replay of the new records, the glyphs of `st` are kept and
   * one glyph was appended per new `ENDCHAR` record.
   */
  predicate Extends(st: State, final: State) {
    && st.records <= final.records
    && Replay(st.declarations, final.records[|st.records|..]) == Some(final.declarations)
    && st.chars <= final.chars
    && |final.chars| == |st.chars| + GlyphsClosed(final.records[|st.records|..])
  }

  /** A turn that logs `d` followed by states extending its result extends its start. */
  lemma ExtendsStep(st: State, st': State, d: Declaration, final: State)
    requires st'.records == st.records + [d]
    requires Replay(st.declarations, [d]) == Some(st'.declarations)
    requires st'.chars == st.chars + (if d == EndChar then [st.current] else [])
    requires Extends(st', final)
    ensures Extends(st, final)
  {
    var rest := final.records[|st'.records|..];
    assert final.records[|st.records|..] == [d] + rest;
    ReplayCons(st.declarations, d, rest, st'.declarations);
    assert GlyphsClosed([d] + rest) == (if d == EndChar then 1 else 0) + GlyphsClosed(rest) by {
      assert ([d] + rest)[1..] == rest;
    }
  }

  /** Over any run of the loop, the final state extends the start. */
  lemma {:induction false} RunInvariant(lines: seq<string>, i: nat, st: State)
    requires Run(lines, i, st).Success?
    ensures Extends(st, Run(lines, i, st).value)
    decreases |lines| - i
  {
    if i < |lines| {
      var st', next := TurnFacts(lines, i, st);
      RunInvariant(lines, next, st');
      ExtendsStep(st, st', KindOf(lines[i]), Run(lines, next, st').value);
    } else {
      assert st.records[|st.records|..] == [];
    }
  }

  /**
   * The decoder fails with the unclosed-declaration error exactly when the
   * loop completes and the records it classified are not balanced; a file
   * whose records are balanced decodes.
   */
  lemma DecodeBalanced(lines: seq<string>, metadata: Metadata, chars: seq<Glyph>)
    requires Run(lines, 0, Start(metadata, chars)).Success?
    ensures var records := Run(lines, 0, Start(metadata, chars)).value.records;
            && (Decode(lines, metadata, chars).Success? <==> Balanced(records))
            && (Decode(lines, metadata, chars) == Failure(Unclosed) <==> !Balanced(records))
  {
    var start := Start(metadata, chars);
    RunInvariant(lines, 0, start);
    var final := Run(lines, 0, start).value;
    assert final.records[|start.records|..] == final.records;
  }

  /**
   * A decoded font keeps the glyphs the object held before and appends one
   * glyph per `ENDCHAR` record, in the order of the file.
   */
  lemma DecodeGlyphs(lines: seq<string>, metadata: Metadata, chars: seq<Glyph>)
    requires Decode(lines, metadata, chars).Success?
    ensures var final := Decode(lines, metadata, chars).value;
            && chars <= final.chars
            && |final.chars| == |chars| + GlyphsClosed(final.records)
            && Balanced(final.records)
  {
    var start := Start(metadata, chars);
    RunInvariant(lines, 0, start);
    var final := Run(lines, 0, start).value;
    assert final.records[|start.records|..] == final.records;
  }
}
