/** The two code classifiers of is-whitespace.js, written as the source's
    `switch` statements, and their relation to the WhiteSpace and
    LineTerminator productions of ECMA-262 (12th edition, sections 12.2 and
    12.3). */
module Whitespace {

  predicate IsWhitespace(code: int) {
    match code
    case 0x0009 => true   // CHARACTER TABULATION
    case 0x000B => true   // LINE TABULATION
    case 0x000C => true   // FORM FEED
    case 0x0020 => true   // SPACE
    case 0x00A0 => true   // NO-BREAK SPACE
    case 0x1680 => true   // OGHAM SPACE MARK
    case 0x2000 => true   // EN QUAD
    case 0x2001 => true   // EM QUAD
    case 0x2002 => true   // EN SPACE
    case 0x2003 => true   // EM SPACE
    case 0x2004 => true   // THREE-PER-EM SPACE
    case 0x2005 => true   // FOUR-PER-EM SPACE
    case 0x2006 => true   // SIX-PER-EM SPACE
    case 0x2007 => true   // FIGURE SPACE
    case 0x2008 => true   // PUNCTUATION SPACE
    case 0x2009 => true   // THIN SPACE
    case 0x200A => true   // HAIR SPACE
    case 0x202F => true   // NARROW NO-BREAK SPACE
    case 0x205F => true   // MEDIUM MATHEMATICAL SPACE
    case 0x3000 => true   // IDEOGRAPHIC SPACE
    case 0xFEFF => true   // ZERO WIDTH NO-BREAK SPACE
    case _ => false
  }

  predicate IsNewLine(code: int) {
    match code
    case 0x000A => true   // LINE FEED
    case 0x000D => true   // CARRIAGE RETURN
    case 0x2028 => true   // LINE SEPARATOR
    case 0x2029 => true   // PARAGRAPH SEPARATOR
    case _ => false
  }

  /** The Unicode "Space_Separator" (Zs) code points. */
  predicate IsSpaceSeparator(code: int) {
    code == 0x20 || code == 0xA0 || code == 0x1680 || 0x2000 <= code <= 0x200A
    || code == 0x202F || code == 0x205F || code == 0x3000
  }

  /** WhiteSpace :: TAB | VT | FF | ZWNBSP | USP, where USP is any Zs code point. */
  predicate IsEcmaWhiteSpace(code: int) {
    code == 0x9 || code == 0xB || code == 0xC || code == 0xFEFF || IsSpaceSeparator(code)
  }

  /** LineTerminator :: LF | CR | LS | PS. */
  predicate IsEcmaLineTerminator(code: int) {
    code == 0xA || code == 0xD || code == 0x2028 || code == 0x2029
  }

  /** `isWhitespace` is exactly the WhiteSpace production (so it is false for
      every code the switch does not list). */
  lemma IsWhitespaceIsEcmaWhiteSpace(code: int)
    ensures IsWhitespace(code) <==> IsEcmaWhiteSpace(code)
  {
  }

  /** `isNewLine` is exactly the LineTerminator production. */
  lemma IsNewLineIsEcmaLineTerminator(code: int)
    ensures IsNewLine(code) <==> IsEcmaLineTerminator(code)
  {
  }

  /** No code is both a space and a line terminator. */
  lemma WhitespaceNewLineDisjoint(code: int)
    ensures !(IsWhitespace(code) && IsNewLine(code))
  {
  }

  /** Every code the tokenizer could meet is classified; no code outside the
      UTF-16 range, such as the -1 that stands for NaN, is either. */
  lemma ClassifiersOutsideRange(code: int)
    requires code < 0 || code > 0xFFFF
    ensures !IsWhitespace(code) && !IsNewLine(code)
  {
  }
}
