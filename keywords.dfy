/**
 * The keyword classifier: `ofxBDF::toDeclaration` maps the first token of a
 * line to one of the eighteen record kinds of BDF 2.1 that the decoder
 * handles, or to `Unknown`.
 */
module Keywords {

  datatype Declaration =
    | StartFont | Font | Size | FontBoundingBox | StartProperties
    | FontDescent | FontAscent | DefaultChar | EndProperties | Chars
    | StartChar | Encoding | SWidth | DWidth | Bbx | Bitmap | EndChar
    | EndFont | Unknown

  /** The keyword that introduces a record of kind `d`. */
  function Keyword(d: Declaration): string
    requires d != Unknown
  {
    match d
    case StartFont => "STARTFONT"
    case Font => "FONT"
    case Size => "SIZE"
    case FontBoundingBox => "FONTBOUNDINGBOX"
    case StartProperties => "STARTPROPERTIES"
    case FontDescent => "FONT_DESCENT"
    case FontAscent => "FONT_ASCENT"
    case DefaultChar => "DEFAULT_CHAR"
    case EndProperties => "ENDPROPERTIES"
    case Chars => "CHARS"
    case StartChar => "STARTCHAR"
    case Encoding => "ENCODING"
    case SWidth => "SWIDTH"
    case DWidth => "DWIDTH"
    case Bbx => "BBX"
    case Bitmap => "BITMAP"
    case EndChar => "ENDCHAR"
    case EndFont => "ENDFONT"
  }

  /**
   * `toDeclaration`: total; a recognised kind is returned exactly when the
   * token is that kind's keyword, character for character.
   */
  function ToDeclaration(s: string): (d: Declaration)
    ensures d != Unknown ==> Keyword(d) == s
  {
    if s == "STARTFONT" then StartFont
    else if s == "FONT" then Font
    else if s == "SIZE" then Size
    else if s == "FONTBOUNDINGBOX" then FontBoundingBox
    else if s == "STARTPROPERTIES" then StartProperties
    else if s == "FONT_DESCENT" then FontDescent
    else if s == "FONT_ASCENT" then FontAscent
    else if s == "DEFAULT_CHAR" then DefaultChar
    else if s == "ENDPROPERTIES" then EndProperties
    else if s == "CHARS" then Chars
    else if s == "STARTCHAR" then StartChar
    else if s == "ENCODING" then Encoding
    else if s == "SWIDTH" then SWidth
    else if s == "DWIDTH" then DWidth
    else if s == "BBX" then Bbx
    else if s == "BITMAP" then Bitmap
    else if s == "ENDCHAR" then EndChar
    else if s == "ENDFONT" then EndFont
    else Unknown
  }

  /** Every keyword is classified as its own kind (so the keywords are distinct). */
  lemma {:induction false} KeywordClassified(d: Declaration)
    requires d != Unknown
    ensures ToDeclaration(Keyword(d)) == d
  {
    match d
    case StartFont =>
    case Font =>
    case Size =>
    case FontBoundingBox =>
    case StartProperties =>
    case FontDescent =>
    case FontAscent =>
    case DefaultChar =>
    case EndProperties =>
    case Chars =>
    case StartChar =>
    case Encoding =>
    case SWidth =>
    case DWidth =>
    case Bbx =>
    case Bitmap =>
    case EndChar =>
    case EndFont =>
  }

  /** Different kinds have different keywords. */
  lemma KeywordInjective(d: Declaration, e: Declaration)
    requires d != Unknown && e != Unknown && d != e
    ensures Keyword(d) != Keyword(e)
  {
    KeywordClassified(d);
    KeywordClassified(e);
  }

  /** A string that is no keyword, the empty string among them, is `Unknown`. */
  lemma NonKeywordIsUnknown(s: string)
    requires forall d: Declaration :: d != Unknown ==> Keyword(d) != s
    ensures ToDeclaration(s) == Unknown
  {
  }

  /** The empty token is not a keyword. */
  lemma EmptyIsUnknown()
    ensures ToDeclaration("") == Unknown
  {
  }
}
