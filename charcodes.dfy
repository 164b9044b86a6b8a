/** The UTF-16 code-unit constants the tokenizer compares against, and the
    digit classifier. Only the codes the rest of the model reads are named. */
module CharCodes {

  const tab := 9
  const lineFeed := 10
  const carriageReturn := 13
  const space := 32
  const ampersand := 38
  const leftParenthesis := 40
  const rightParenthesis := 41
  const asterisk := 42
  const plusSign := 43
  const comma := 44
  const dash := 45
  const dot := 46
  const slash := 47
  const digit0 := 48
  const digit1 := 49
  const digit2 := 50
  const digit3 := 51
  const digit4 := 52
  const digit5 := 53
  const digit6 := 54
  const digit7 := 55
  const digit8 := 56
  const digit9 := 57
  const uppercaseA := 65
  const uppercaseB := 66
  const uppercaseC := 67
  const uppercaseD := 68
  const uppercaseE := 69
  const uppercaseF := 70
  const uppercaseO := 79
  const uppercaseX := 88
  const uppercaseZ := 90
  const leftSquareBracket := 91
  const rightSquareBracket := 93
  const underscore := 95
  const lowercaseA := 97
  const lowercaseB := 98
  const lowercaseC := 99
  const lowercaseD := 100
  const lowercaseE := 101
  const lowercaseF := 102
  const lowercaseM := 109
  const lowercaseN := 110
  const lowercaseO := 111
  const lowercaseX := 120
  const lowercaseZ := 122
  const nonBreakingSpace := 160
  const oghamSpaceMark := 5760
  const lineSeparator := 8232
  const paragraphSeparator := 8233

  /** The ten digit codes, in order. */
  const DIGITS: seq<int> := [digit0, digit1, digit2, digit3, digit4, digit5, digit6, digit7, digit8, digit9]

  predicate IsDigit(code: int) {
    code >= digit0 && code <= digit9
  }

  /** `isDigit` holds exactly for the ten named digit codes, and those codes
      are consecutive, so `code - digit0` is the digit's value. */
  lemma IsDigitIsDigitTable(code: int)
    ensures IsDigit(code) <==> code in DIGITS
    ensures forall d :: 0 <= d < 10 ==> DIGITS[d] == digit0 + d
  {
  }

  /** Upper- and lower-case letters sit 32 apart, and the line-feed code is the
      value of the digit `a`/`A` in a radix above ten. */
  lemma LetterLayout()
    ensures uppercaseZ - uppercaseA == 25 && lowercaseZ - lowercaseA == 25
    ensures lowercaseA == uppercaseA + 32 && lowercaseZ == uppercaseZ + 32
    ensures lowercaseX == uppercaseX + 32 && lowercaseO == uppercaseO + 32
    ensures lowercaseB == uppercaseB + 32 && lowercaseE == uppercaseE + 32
    ensures lineFeed == 10
  {
  }

  const STRUCTURAL: seq<int> :=
    [leftParenthesis, rightParenthesis, leftSquareBracket, rightSquareBracket, comma, ampersand]

  /** The six structural characters have pairwise distinct codes, none of them a digit. */
  lemma StructuralCodes()
    ensures leftParenthesis == '(' as int && rightParenthesis == ')' as int
    ensures leftSquareBracket == '[' as int && rightSquareBracket == ']' as int
    ensures comma == ',' as int && ampersand == '&' as int
    ensures forall i, j :: 0 <= i < j < |STRUCTURAL| ==> STRUCTURAL[i] != STRUCTURAL[j]
    ensures forall c | c in STRUCTURAL :: !IsDigit(c)
  {
  }
}
