# ofxBDF font decoder, modelled in Dafny

`ofxBDF` reads a Glyph Bitmap Distribution Format (BDF) font. The file is
made of text lines, each a keyword followed by arguments. Decoding fills two
fields: a metadata record (version, name, size, resolution, the font's main
bounding box, ascent, descent, default character, glyph count) and the glyph
list in file order. Each glyph has a name, a code point, scalable and device
widths, a bounding box and an image. The image is read from hexadecimal rows:
each row is padded to whole bytes, and its most significant bit is the
leftmost pixel.

The model follows the source's three core routines.

- `Tokenizer` covers `getTokens`: a line split into whitespace-separated
  tokens. `GetTokens` is the imperative loop. `Tokens` is its specification.
- `Keywords` covers `toDeclaration`: the 18 record keywords, plus `Unknown`
  for everything else.
- `Numerals` covers the integer conversions the decoder uses. `ParseInt` is
  `std::stoi`. `ParseHexRowAsWritten` is the row read exactly as the source
  reads it (`strtoll`). `ParseHexRow` is the corrected unsigned read
  (see Findings).
- `Bitmap` covers the `BITMAP` branch: the padding, the 64-bit cap and the
  bit order. `ReadBitmap` and `SetRow` are the two nested loops. `BitmapOf`
  and `DecodeRow` are their specification. The rows are read with the
  corrected `ParseHexRow`, and the decoder inherits this. `BitmapAsWritten`
  is the image read with the source's `strtoll`. `BitmapOfAgrees` proves the
  two equal whenever no row's digits exceed `LLONG_MAX`.
- `Decoder` covers `parseInputFile` as a state machine. `Step` is one turn
  of the loop and returns the new state with the index of the next line to
  read. `Turn` is the switch on the record's kind, stated field by field:
  `StackAfter`, `MetadataAfter`, `GlyphAfter` and `NextLine`. `Run` is the
  loop. `Decode` is the loop followed by the check for an unclosed
  declaration. The state also holds `records`, a log of the record
  kinds seen so far. It exists only for the proofs: it lets the declaration
  stack be stated as a replay of the records.
- `DecoderProperties` holds what the decoder keeps:
  - the stack discipline;
  - `ENDCHAR` appending the glyph;
  - what each header record and each glyph-field record stores, and when it
    fails;
  - `BBX`;
  - `BITMAP` consuming exactly `height` lines;
  - decoding succeeds exactly when the records are balanced.
- `BdfFont` covers the `ofxBDF` object. The class `Font` holds `metadata`
  and `chars`. Its method `ParseInputFile` is the imperative loop, proved to
  leave the fields as `Decode` says. The loop's switch is the method
  `ParseRecord`; its header cases and its glyph-field cases are the methods
  `ReadFontField` and `ReadGlyphField`.
- `Scenarios` decodes a small complete font file, and the same file without
  its `ENDFONT`. The file is given by the tokens of its lines.

The file is a sequence of lines. Opening the file and reading it
(`std::ifstream`, `getline`) are replaced by that parameter.

Each way the source can end early becomes an error value. Two of them are
undefined behaviour in C++:

- `tokens[k]` read past the end of the token vector (an empty line, a record
  missing arguments) is `MissingToken`;
- `pop()` on an empty stack is `StackUnderflow`.

The other two are well defined:

- `stoi` throwing (no digits, or a value outside 32-bit `int`) is
  `BadInteger`. Nothing in this source catches the exception, so it
  propagates out of `setup`. Whether the process then ends depends on the
  application that calls `setup`;
- a declaration left open at the end, which the source reports with
  `error(2, ...)` and then `exit`s, is `Unclosed`.

## Model

| member | source | states |
|---|---|---|
| Tokenizer.Tokens | src/ofxBDF.cpp:148-156 | the specification of the extraction loop; its properties are `TokensAreWords`, `TokensConcat`, `TokensSplit` and `TokensOfWord` |
| Tokenizer.GetTokens | src/ofxBDF.cpp:148-156 | the extraction loop returns exactly `Tokens(s)`, the whitespace-separated words of the line in order |
| Tokenizer.ScanWord | src/ofxBDF.cpp:152 | one extraction ends at the first whitespace character after `i`, or at the end of the line, and is `WordLength` characters long |
| Tokenizer.TokensAreWords | src/ofxBDF.cpp:152-154 | every token is non-empty and contains no whitespace character |
| Tokenizer.TokensConcat | src/ofxBDF.cpp:148-156 | concatenating the tokens gives the line with all whitespace removed, so no character other than whitespace is lost or added |
| Tokenizer.TokensSplit | src/ofxBDF.cpp:152-154 | a whitespace character separates tokens: the tokens of `a + [c] + b` are those of `a` followed by those of `b` |
| Tokenizer.TokensOfWord | src/ofxBDF.cpp:152-154 | a line that is a single word has that word as its only token |
| Keywords.ToDeclaration | src/ofxBDF.cpp:171-191 | whenever the result is a record kind other than `Unknown`, the input is exactly that kind's keyword |
| Keywords.KeywordClassified | src/ofxBDF.cpp:172-189 | each of the 18 keywords is classified as its own record kind |
| Keywords.KeywordInjective | src/ofxBDF.cpp:172-189 | distinct record kinds have distinct keywords |
| Keywords.NonKeywordIsUnknown | src/ofxBDF.cpp:190 | a string that is none of the keywords is `Unknown` |
| Keywords.EmptyIsUnknown | src/ofxBDF.cpp:190 | the empty string is `Unknown` |
| Numerals.ParseInt | src/ofxBDF.cpp:49 | a successful `stoi` lies within 32-bit `int` |
| Numerals.ParseIntNeedsDigit | src/ofxBDF.cpp:49 | `stoi` succeeds only on a text that contains a decimal digit |
| Numerals.DigitRunIsRun | src/ofxBDF.cpp:49 | the digits `stoi` reads are the longest run of digits at the start of the text |
| Numerals.SkipSpaceIsSuffix | src/ofxBDF.cpp:49 | `stoi` skips exactly the leading whitespace: what remains is a suffix of the text that does not start with whitespace |
| Numerals.ParseFormatInt | src/ofxBDF.cpp:49 | every 32-bit integer written in decimal, with a minus sign if negative, is read back as itself |
| Numerals.ParseIntOfDigits | src/ofxBDF.cpp:49 | after leading whitespace and an optional sign, a run of decimal digits is read as its signed value when that value fits in `int` |
| Numerals.HexMagnitude | src/ofxBDF.cpp:109 | the sign and the hexadecimal magnitude both reads take from a row; `ParseHexRowOfFormat` proves it inverts formatting |
| Numerals.SignedRead | src/ofxBDF.cpp:109 | `strtoll` saturating at the `long long` bounds, then stored in an `unsigned long long`: always below 2^64 |
| Numerals.UnsignedRead | src/ofxBDF.cpp:109 | the corrected `strtoull` read: always below 2^64 |
| Numerals.ParseHexRowAsWritten | src/ofxBDF.cpp:109 | the row value as the source reads it always lies below 2^64 |
| Numerals.AsWrittenOfUnsigned | src/ofxBDF.cpp:109 | without a minus sign, the source's read is the hexadecimal magnitude saturated at `LLONG_MAX` |
| Numerals.ParseHexRow | src/ofxBDF.cpp:109 | the corrected unsigned read always lies below 2^64 |
| Numerals.ParseHexRowOfFormat | src/ofxBDF.cpp:109 | every 64-bit value written in hexadecimal is read back as itself |
| Numerals.ParseHexRowAgrees | src/ofxBDF.cpp:109 | the source's read and the corrected read agree on every unsigned row up to `LLONG_MAX` |
| Numerals.RowReadsAgree | src/ofxBDF.cpp:109 | for either sign, a row whose magnitude is at most `LLONG_MAX` is read alike by the source and by the corrected read |
| Bitmap.Padding | src/ofxBDF.cpp:114 | the padding is below 8; it is 0 exactly when the width is a multiple of 8; width plus padding is a multiple of 8 |
| Bitmap.DecodeRow | src/ofxBDF.cpp:110-125 | the specification of the pixel loop; its properties are `DecodeRowPixel` and `DecodeEncodeRow` |
| Bitmap.LineAt | src/ofxBDF.cpp:108 | the row line `getline` delivers: line `k` of the file when it exists, otherwise the empty line (value 0) |
| Bitmap.BitmapOf | src/ofxBDF.cpp:105-127 | the specification of the row loop, with the corrected read; `ReadBitmap` computes it and `BitmapOfAgrees` relates it to the source's read |
| Bitmap.BitmapAsWritten | src/ofxBDF.cpp:105-127 | the image as the source reads it, with `strtoll` on each row |
| Bitmap.BitmapOfAgrees | src/ofxBDF.cpp:105-127 | when no row line holds a magnitude above `LLONG_MAX`, the decoder's image equals the one the source builds |
| Bitmap.ReadBitmap | src/ofxBDF.cpp:105-127 | the row loop consumes exactly `height` lines (none if the height is not positive) and builds the image `BitmapOf`, one decoded row per line |
| Bitmap.SetRow | src/ofxBDF.cpp:110-125 | the pixel loop turns one freshly allocated row into `DecodeRow` of the row value and leaves every other row unchanged |
| Bitmap.DecodeRowPixel | src/ofxBDF.cpp:110-125 | for widths 1 to 64, a row has `width` pixels and pixel `x` is bit `(width - 1 - x) + padding` of the row value |
| Bitmap.DecodeFullRow | src/ofxBDF.cpp:115-123 | row `0xFF` of an 8-pixel glyph is all foreground |
| Bitmap.DecodeFrameRow | src/ofxBDF.cpp:115-123 | row `0x81` of an 8-pixel glyph has only its leftmost and rightmost pixels set |
| Bitmap.DecodeEmptyRow | src/ofxBDF.cpp:115-123 | row `0x00` of an 8-pixel glyph is all background |
| Bitmap.DecodeNarrowRow | src/ofxBDF.cpp:114-123 | a 6-pixel glyph has 2 padding bits, and row `0x84` is its two edge pixels |
| Bitmap.DecodeEncodeRow | src/ofxBDF.cpp:110-125 | decoding inverts packing: any row of 1 to 64 pixels, packed most significant bit first and padded, decodes to itself |
| Bitmap.RowRoundTrip | src/ofxBDF.cpp:109-125 | any row of 1 to 64 pixels, written as its hexadecimal row and read back with the corrected parse, decodes to itself |
| Bitmap.AsWrittenLosesLeftmostPixel | src/ofxBDF.cpp:109-118 | as written, for widths 57 to 64, a row whose leftmost pixel is set decodes with that pixel cleared |
| Bitmap.AsWrittenSaturates | src/ofxBDF.cpp:109 | as written, every hexadecimal row above `LLONG_MAX` is read as `LLONG_MAX` |
| Decoder.StackAfter | src/ofxBDF.cpp:40-135 | the stack update of one record; `TurnStack` and `TurnUnderflow` state its discipline |
| Decoder.MetadataAfter | src/ofxBDF.cpp:41-76 | the metadata update of one record; `TurnStartFont`, `TurnFont`, `TurnSize`, `TurnFontBoundingBox` and `TurnMetadataScalar` state what each header record stores |
| Decoder.GlyphAfter | src/ofxBDF.cpp:77-131 | the working-glyph update of one record; `TurnStartChar`, `TurnEncoding`, `TurnWidths`, `TurnBbx`, `TurnBitmap` and `TurnGlyphs` state what each record stores |
| Decoder.IntArgs | src/ofxBDF.cpp:48-97 | a successful read of a record's integer arguments yields exactly `count` values |
| Decoder.IntArgsSucceeds | src/ofxBDF.cpp:48-97 | reading a record's integer arguments succeeds exactly when there are `count` of them and `stoi` accepts each |
| Decoder.IntArgsReads | src/ofxBDF.cpp:48-97 | on success the record has more than `count` tokens and argument `k` is what `stoi` reads from token `k`; on failure either there are too few tokens (missing token) or some argument within reach is one `stoi` rejects (bad integer) |
| Decoder.ArgsFromValues | src/ofxBDF.cpp:48-97 | the arguments from token `from` on, read successfully, are in order the values `stoi` reads from those tokens |
| Decoder.ArgsFromErrors | src/ofxBDF.cpp:48-97 | a failed read of arguments is a missing token past the end, or a token in reach that `stoi` rejects |
| Decoder.Step | src/ofxBDF.cpp:36-139 | one turn of the loop always moves past the current line |
| Decoder.Turn | src/ofxBDF.cpp:40-139 | the switch on the record's kind always moves past the current line; the `Turn` lemmas of `DecoderProperties` state each case |
| Decoder.Run | src/ofxBDF.cpp:36-140 | the loop; `RunInvariant` states what it keeps |
| Decoder.Decode | src/ofxBDF.cpp:30-146 | the loop and the final check; `DecodeBalanced` and `DecodeGlyphs` state when it succeeds and what it yields |
| Decoder.RunStops | src/ofxBDF.cpp:36-139 | a fatal turn ends the whole loop with that turn's error |
| DecoderProperties.StepNoTokens | src/ofxBDF.cpp:37-38 | a line without tokens is a missing-token error on that line (`tokens[0]` does not exist) |
| DecoderProperties.StepTurn | src/ofxBDF.cpp:37-40 | a line with tokens is handled as the record kind its first token classifies |
| DecoderProperties.TurnStack | src/ofxBDF.cpp:40-135 | opening records push their kind; closing records pop one entry from a non-empty stack; all others leave the stack alone; this is one replay step of the record |
| DecoderProperties.TurnUnderflow | src/ofxBDF.cpp:128-135 | a closing record on an empty stack is the underflow error of that line |
| DecoderProperties.TurnGlyphs | src/ofxBDF.cpp:128-132 | `ENDCHAR` appends the working glyph and resets it to the default; every other record leaves the glyph list unchanged |
| DecoderProperties.TurnUnknown | src/ofxBDF.cpp:136-138 | an unrecognised line changes nothing except the log, and the loop moves to the next line |
| DecoderProperties.TurnBitmap | src/ofxBDF.cpp:105-127 | `BITMAP` always succeeds; it resumes exactly `height` lines later; only the glyph's image changes, to the `height` rows decoded from the lines after the record |
| DecoderProperties.TurnBbx | src/ofxBDF.cpp:92-104 | after `BBX`, the record has five tokens and the glyph's box is, field by field, the four parsed integers (whether or not it equals the main box); the rest of the glyph is unchanged |
| DecoderProperties.TurnStartFont | src/ofxBDF.cpp:41-44 | `STARTFONT v` succeeds exactly when `v` is present; it pushes `STARTFONT`, sets the version to `v` and changes nothing else; otherwise it is a missing token |
| DecoderProperties.TurnFont | src/ofxBDF.cpp:45-47 | `FONT n` succeeds exactly when `n` is present; it sets the name to `n` and changes nothing else; otherwise it is a missing token |
| DecoderProperties.TurnSize | src/ofxBDF.cpp:48-52 | `SIZE` succeeds exactly when its three fields are integers; size, x and y resolution are then those integers in order, and nothing else changes |
| DecoderProperties.TurnFontBoundingBox | src/ofxBDF.cpp:53-58 | `FONTBOUNDINGBOX` succeeds exactly when its four fields are integers; the main box is then, field by field, those integers, and nothing else changes |
| DecoderProperties.TurnMetadataScalar | src/ofxBDF.cpp:62-76 | `FONT_DESCENT`, `FONT_ASCENT`, `DEFAULT_CHAR` and `CHARS` succeed exactly when their field is an integer, and each then stores it in its own field and changes nothing else |
| DecoderProperties.TurnStartChar | src/ofxBDF.cpp:77-80 | `STARTCHAR n` succeeds exactly when `n` is present; it pushes `STARTCHAR`, names the working glyph `n` and changes nothing else; otherwise it is a missing token |
| DecoderProperties.TurnEncoding | src/ofxBDF.cpp:81-83 | `ENCODING` succeeds exactly when its field is an integer, and then sets only the glyph's code point to it |
| DecoderProperties.TurnWidths | src/ofxBDF.cpp:84-91 | `SWIDTH` and `DWIDTH` succeed exactly when both fields are integers, and then set only the scalable, respectively device, width to them in order |
| DecoderProperties.TurnMetadataFrame | src/ofxBDF.cpp:40-139 | only the eight header records change the font's metadata |
| DecoderProperties.TurnFacts | src/ofxBDF.cpp:36-139 | a successful turn logs the line's kind, replays it on the stack and appends the working glyph exactly when it is `ENDCHAR`, and the loop goes on from a later line |
| DecoderProperties.RunInvariant | src/ofxBDF.cpp:36-140 | over the loop, the log only grows; the final stack is the replay of the new records; the glyph list only grows, by one per `ENDCHAR` |
| DecoderProperties.DecodeBalanced | src/ofxBDF.cpp:142-144 | once the loop completes, decoding succeeds exactly when the records are balanced, and fails as unclosed exactly when they are not |
| DecoderProperties.DecodeGlyphs | src/ofxBDF.cpp:128-144 | a successful decode extends the previous glyph list by exactly one glyph per `ENDCHAR`, and its records are balanced |
| BdfFont.ReadFontField | src/ofxBDF.cpp:45-76 | the header cases other than `STARTFONT` report the error, or set the metadata field, exactly as `MetadataAfter` does; what that stores is stated by `TurnFont`, `TurnSize`, `TurnFontBoundingBox` and `TurnMetadataScalar` |
| BdfFont.ReadGlyphField | src/ofxBDF.cpp:81-104 | `ENCODING`, `SWIDTH`, `DWIDTH` and `BBX` report the error, or set the glyph's fields, exactly as `GlyphAfter` does |
| BdfFont.Font.constructor | src/ofxBDF.cpp:3-11 | the object `setup` fills starts with the default metadata and no glyph (the defaults come from `ofxBDF.h`, which is not part of this model) |
| BdfFont.Font.ParseRecord | src/ofxBDF.cpp:40-139 | the switch leaves `metadata`, `chars`, the stack, the working glyph and the next line as `Turn` computes them, or returns `Turn`'s error |
| BdfFont.Font.ParseInputFile | src/ofxBDF.cpp:30-146 | the imperative loop reports success exactly when `Decode` succeeds, then leaves `metadata` and `chars` as `Decode` computes them from their old values; otherwise it returns `Decode`'s error |
| Scenarios.BoxArgs | src/ofxBDF.cpp:94-97 | a box record whose fields read as 8, 8, 0 and 0 gives exactly those four arguments, in order |
| Scenarios.RunToEndChar | src/ofxBDF.cpp:36-132 | a header, a bounding box and one 8 by 8 glyph run, record by record, to the state after `ENDCHAR`: one glyph named `frame` with the 8 by 8 box, only `STARTFONT` still open |
| Scenarios.FrameFontDecodes | src/ofxBDF.cpp:36-144 | the complete file decodes to version `2.1`, its main box and the one glyph (name, box, and image from lines 5 to 12), with every section closed |
| Scenarios.FullRowText | src/ofxBDF.cpp:109-123 | the row text `FF` reads as `0xFF` in both the source's and the corrected read, and is a full row of an 8-pixel glyph |
| Scenarios.FrameRowText | src/ofxBDF.cpp:109-123 | the row text `81` reads as `0x81` in both reads, and is the two edge pixels of an 8-pixel glyph |
| Scenarios.EmptyRowText | src/ofxBDF.cpp:109-123 | the row text `00` reads as 0 in both reads, and is an empty row of an 8-pixel glyph |
| Scenarios.UnterminatedFails | src/ofxBDF.cpp:142-144 | the same file without `ENDFONT` is rejected as unclosed |

## Left out

- `setup` opens and closes the file. `draw` renders the glyphs. `error` and
  `warn` print and exit. These are I/O: the model takes the lines as a
  parameter, and a fatal condition becomes an error value.
- `getMetadata` is left out: it only returns a field.
- The image colours: a foreground pixel is `true` (black, opaque) and a
  background pixel is `false` (transparent white). `ofImage` is otherwise
  not part of this model.
- The object's initial `metadata` and each glyph's initial fields are
  defined in `ofxBDF.h`, which is not part of this model. They are taken to
  be zeros and empty strings (`DefaultMetadata`, `DefaultGlyph`). The
  constructor `BdfFont.Font.constructor` sets those defaults.
- `stoi` throwing `std::invalid_argument` or `std::out_of_range` becomes a
  `BadInteger` error, not an exception.
- Decoder.Step returns `MissingToken` and `StackUnderflow` at out-of-range
  token reads and pops on an empty stack. Both are undefined behaviour in the
  source.
- Bitmap.DecodeRow reads a bit shifted by 64 or more as 0. In C++ that shift
  is undefined; it only arises when the width, rounded up to whole bytes,
  exceeds 64.
- Bitmap.DecodeRow leaves pixels 64 and beyond of a wider glyph at
  background: the source never sets them, and a freshly allocated image is
  assumed transparent.
- Bitmap.LineAt reads a row past the end of the file as the empty line
  (value 0). This is what `getline` does when the file ends with a newline.
  When the last line has no newline, the source keeps that last line's text
  instead; this is not modelled.
- Bitmap.Padding uses a remainder that is never negative. It agrees with
  C++ `%` for every positive width. For a non-positive width the row has no
  pixels, so the padding does not matter.
- Bitmap.ReadBitmap reads each row with the corrected unsigned read
  (`strtoull`), not the `strtoll` of line 109 (see Findings). The two
  can differ only for a row whose magnitude exceeds `LLONG_MAX`
  (`strtoll` saturates it at `LLONG_MAX`, or at `LLONG_MIN` with a minus
  sign); `Bitmap.BitmapOfAgrees` proves them equal otherwise.
- Bitmap.BitmapOf uses the same corrected read. Its image and the source's
  can differ only for a row whose magnitude exceeds `LLONG_MAX`
  (`strtoll` saturates it at `LLONG_MAX`, or at `LLONG_MIN` with a minus
  sign); `Bitmap.BitmapOfAgrees` proves them equal otherwise.
- Decoder.GlyphAfter, Decoder.Turn, Decoder.Run and Decoder.Decode build
  `BITMAP` images with the corrected read, unlike line 109. Their images
  and the source's can differ only for a row whose magnitude exceeds
  `LLONG_MAX` (`strtoll` saturates it at `LLONG_MAX`, or at `LLONG_MIN` with a minus
  sign); `Bitmap.BitmapOfAgrees` proves them equal otherwise.
- DecoderProperties.TurnBitmap states the image with the corrected read,
  not the `strtoll` of line 109. The two images
  can differ only for a row whose magnitude exceeds `LLONG_MAX`
  (`strtoll` saturates it at `LLONG_MAX`, or at `LLONG_MIN` with a minus
  sign); `Bitmap.BitmapOfAgrees` proves them equal otherwise.
- BdfFont.Font.ParseRecord computes `Turn`, so its `BITMAP` case reads rows
  unsigned, unlike line 109. The two reads
  can differ only for a row whose magnitude exceeds `LLONG_MAX`
  (`strtoll` saturates it at `LLONG_MAX`, or at `LLONG_MIN` with a minus
  sign); `Bitmap.BitmapOfAgrees` proves them equal otherwise.
- BdfFont.Font.ParseInputFile computes `Decode`, so it reads rows unsigned,
  unlike line 109. The two reads
  can differ only for a row whose magnitude exceeds `LLONG_MAX`
  (`strtoll` saturates it at `LLONG_MAX`, or at `LLONG_MIN` with a minus
  sign); `Bitmap.BitmapOfAgrees` proves them equal otherwise.
- Scenarios.FrameFontDecodes states the image with the corrected read. For
  the row texts `FF`, `81` and `00`, both reads agree (`FullRowText`,
  `FrameRowText`, `EmptyRowText`).
- BdfFont.Font.ParseInputFile does not state `metadata` and `chars` after
  an error. There the source has undefined behaviour, `exit`s, or lets a
  `stoi` exception propagate out of `setup`, uncaught by this source. A
  caller that catches the exception would see fields partly updated: after
  `SIZE 12 x 72`, `size` is already stored when the second field throws.
  The model leaves that state unspecified.
- Scenarios.FrameFontDecodes states the glyph's image as the rows
  `Bitmap.BitmapOf` reads from its lines. The pixel content of the rows
  `FF`, `81` and `00` is stated separately, by `Scenarios.FullRowText`,
  `Scenarios.FrameRowText` and `Scenarios.EmptyRowText`, not in this lemma.
- Scenarios.FrameFontDecodes and Scenarios.UnterminatedFails are stated
  for any lines whose tokens are those of the example file, not for one
  literal text. The two are the same as far as the decoder is concerned,
  since it only reads a line through its tokens, except for the row lines.
- The `records` log of `Decoder.State` is not part of the source's state.
  The model adds it so the stack can be stated as a replay of the records.

## Findings

| source | as written | input that shows it | evidently intended | confidence | as-written member | corrected member |
|---|---|---|---|---|---|---|
| src/ofxBDF.cpp:109 | the row is read with `strtoll` (signed), which saturates at `LLONG_MAX` = 2^63 - 1 and only then is stored in an `unsigned long long` | a glyph 64 pixels wide whose row `8000000000000000` has only its leftmost pixel set: it is read as `7FFFFFFFFFFFFFFF`, so pixel 0 becomes background and pixels 1 to 63 foreground | an unsigned 64-bit read (`strtoull`), so that every row of up to 64 pixels decodes to itself | not executed | Bitmap.AsWrittenLosesLeftmostPixel | Bitmap.RowRoundTrip |
