/** What `src/fskio/fsk.cxx` has to put on the air, independent of its tables: the
    International Telegraph Alphabet No. 2 with the US figures, character by character. */
module Ita2 {
  import opened Common
  import opened Baudot
  import T = Transducer

  /** The five-unit code of a capital letter, digit, punctuation mark or control character. */
  function Standard(c: char): Option<Code> {
    match c
    case 'A' => Some(Code(Letters, 3))   case 'B' => Some(Code(Letters, 25))
    case 'C' => Some(Code(Letters, 14))  case 'D' => Some(Code(Letters, 9))
    case 'E' => Some(Code(Letters, 1))   case 'F' => Some(Code(Letters, 13))
    case 'G' => Some(Code(Letters, 26))  case 'H' => Some(Code(Letters, 20))
    case 'I' => Some(Code(Letters, 6))   case 'J' => Some(Code(Letters, 11))
    case 'K' => Some(Code(Letters, 15))  case 'L' => Some(Code(Letters, 18))
    case 'M' => Some(Code(Letters, 28))  case 'N' => Some(Code(Letters, 12))
    case 'O' => Some(Code(Letters, 24))  case 'P' => Some(Code(Letters, 22))
    case 'Q' => Some(Code(Letters, 23))  case 'R' => Some(Code(Letters, 10))
    case 'S' => Some(Code(Letters, 5))   case 'T' => Some(Code(Letters, 16))
    case 'U' => Some(Code(Letters, 7))   case 'V' => Some(Code(Letters, 30))
    case 'W' => Some(Code(Letters, 19))  case 'X' => Some(Code(Letters, 29))
    case 'Y' => Some(Code(Letters, 21))  case 'Z' => Some(Code(Letters, 17))
    case '\0' => Some(Code(Letters, 0))  case '\n' => Some(Code(Letters, 2))
    case ' ' => Some(Code(Letters, 4))   case '\r' => Some(Code(Letters, 8))
    case '0' => Some(Code(Figures, 22))  case '1' => Some(Code(Figures, 23))
    case '2' => Some(Code(Figures, 19))  case '3' => Some(Code(Figures, 1))
    case '4' => Some(Code(Figures, 10))  case '5' => Some(Code(Figures, 16))
    case '6' => Some(Code(Figures, 21))  case '7' => Some(Code(Figures, 7))
    case '8' => Some(Code(Figures, 6))   case '9' => Some(Code(Figures, 24))
    case '-' => Some(Code(Figures, 3))   case '\U{07}' => Some(Code(Figures, 5))
    case '$' => Some(Code(Figures, 9))   case '\'' => Some(Code(Figures, 11))
    case ',' => Some(Code(Figures, 12))  case '!' => Some(Code(Figures, 13))
    case ':' => Some(Code(Figures, 14))  case '(' => Some(Code(Figures, 15))
    case '\"' => Some(Code(Figures, 17)) case ')' => Some(Code(Figures, 18))
    case '#' => Some(Code(Figures, 20))  case '?' => Some(Code(Figures, 25))
    case '&' => Some(Code(Figures, 26))  case '.' => Some(Code(Figures, 28))
    case '/' => Some(Code(Figures, 29))  case ';' => Some(Code(Figures, 30))
    case _ => None
  }

  lemma LettersStandard(k: nat)
    requires k < 32 && LETTERS_TABLE[k] != ' '
    ensures Standard(LETTERS_TABLE[k]) == Some(Code(Letters, k))
  {
  }

  lemma LowFigures(k: nat)
    requires k < 16 && FIGURES_TABLE[k] != LETTERS_TABLE[k]
    ensures Standard(FIGURES_TABLE[k]) == Some(Code(Figures, k))
  {
  }

  lemma HighFigures(k: nat)
    requires 16 <= k < 32 && FIGURES_TABLE[k] != LETTERS_TABLE[k]
    ensures Standard(FIGURES_TABLE[k]) == Some(Code(Figures, k))
  {
  }

  lemma LetterInTable(c: char)
    requires Standard(c).Some? && Standard(c).value.shift == Letters
    ensures Standard(c).value.bits < 32 && LETTERS_TABLE[Standard(c).value.bits] == c
  {
  }

  lemma FigureInTable(c: char)
    requires Standard(c).Some? && Standard(c).value.shift == Figures
    ensures Standard(c).value.bits < 32 && FIGURES_TABLE[Standard(c).value.bits] == c
  {
  }

  lemma StandardInTables(c: char)
    requires Standard(c).Some?
    ensures Standard(c).value.bits < 32 && Table(Standard(c).value.shift)[Standard(c).value.bits] == c
    ensures Within(LETTERS_TABLE, FIGURES_TABLE, c, 0, 32)
  {
    if Standard(c).value.shift == Letters { LetterInTable(c); } else { FigureInTable(c); }
  }

  lemma ScanIsStandard(c: char)
    requires c != ' '
    ensures Scan(c, 0) == Standard(c)
  {
    ScanFinds(c, 0);
    match Scan(c, 0)
    case Some(Code(Letters, k)) => LettersStandard(k);
    case Some(Code(Figures, k)) => if k < 16 { LowFigures(k); } else { HighFigures(k); }
    case None =>
      if Standard(c).Some? { StandardInTables(c); }
  }

  predicate IsLower(c: char) { 'a' <= c <= 'z' }

  /** Every character that is no lower-case letter is sent with its standard code and prints
      as itself; one without a code is sent as a space in the sender's case. */
  lemma EncodesStandard(c: char, shift: Case)
    requires !IsLower(c)
    ensures match Standard(c)
      case Some(code) => Encode(c, shift) == code && Glyph(code) == c
      case None => Encode(c, shift) == Code(shift, 4) && Glyph(Code(shift, 4)) == ' '
  {
    assert LETTERS_TABLE[4] == ' ' && FIGURES_TABLE[4] == ' ';
    if c != ' ' { ScanIsStandard(c); }
    if Standard(c).Some? { StandardInTables(c); }
  }

  lemma CapitalsAreLetters(c: char)
    requires 'A' <= c <= 'Z'
    ensures Standard(c).Some? && Standard(c).value.shift == Letters
  {
  }

  /** The k-th lower-case letter is sent with the code of the k-th capital, in letters case,
      and prints as that capital. */
  lemma LowerAsCapital(small: char, capital: char, k: nat, shift: Case)
    requires k < 26 && small as int == 'a' as int + k && capital as int == 'A' as int + k
    ensures Encode(small, shift) == Encode(capital, shift) && Standard(capital) == Some(Encode(small, shift))
    ensures Encode(small, shift).shift == Letters && Glyph(Encode(small, shift)) == capital
  {
    CapitalsAreLetters(capital);
    EncodesStandard(capital, shift);
    assert Upper(small) == capital == Upper(capital);
  }

  /** What is read of a character: a lower-case letter as its capital, any other character
      with a code as itself, the rest as spaces. */
  lemma ReadAs(c: char)
    ensures IsLower(c) ==> Shown(c) as int == c as int - 'a' as int + 'A' as int
    ensures !IsLower(c) ==> Shown(c) == if Standard(c).Some? then c else ' '
  {
    EncodePrints(c, Letters);
    if IsLower(c) {
      var k := c as int - 'a' as int;
      LowerAsCapital(c, ('A' as int + k) as char, k, Letters);
    } else {
      EncodesStandard(c, Letters);
    }
  }

  /** The codes one item puts on the air: 31 for an idle, and in front of a character 31 or
      27 if its case is not the one the line is in. */
  lemma KeyedStandard(c: char, shift: Case)
    requires !IsLower(c) && Standard(c).Some?
    ensures var code := Standard(c).value;
      T.KeyOne(Some(c), shift)
      == if code.shift == shift then [code.bits] else [if code.shift == Letters then 31 else 27, code.bits]
    ensures T.KeyOne(None, shift) == [31]
  {
    EncodesStandard(c, shift);
  }

  /** What the codes do to a receiver's case. */
  lemma ShiftCodes(bits: nat, shift: Case, unshift: bool)
    ensures CaseAfter(bits, shift, unshift)
         == if bits == 31 then Letters else if bits == 27 then Figures
            else if bits == 4 && unshift then Letters else shift
  {
  }
}
