/** The five-unit code of `src/fskio/fsk.cxx`: the US letters and figures
    tables, the table scan that encodes a character, and a receiver that prints
    the codes it is given. */
module Baudot {
  import opened Common

  /** The two shift states, FSK_LETTERS and FSK_FIGURES. */
  datatype Case = Letters | Figures

  /** What the encoder returns: the case bits and the five data bits. */
  datatype Code = Code(shift: Case, bits: nat)

  const LTRS: nat := 0x1F
  const FIGS: nat := 0x1B
  const SPACE_BITS: nat := 4

  const LETTERS_TABLE: seq<char> := [
    '\0', 'E', '\n', 'A', ' ', 'S', 'I', 'U',
    '\r', 'D', 'R', 'J', 'N', 'F', 'C', 'K',
    'T', 'Z', 'L', 'W', 'H', 'Y', 'P', 'Q',
    'O', 'B', 'G', ' ', 'M', 'X', 'V', ' '
  ]

  const FIGURES_TABLE: seq<char> := [
    '\0', '3', '\n', '-', ' ', '\U{07}', '8', '7',
    '\r', '$', '4', '\'', ',', '!', ':', '(',
    '5', '"', ')', '2', '#', '6', '0', '1',
    '9', '?', '&', ' ', '.', '/', ';', ' '
  ]

  function Table(shift: Case): (t: seq<char>)
    ensures |t| == 32
  {
    if shift == Letters then LETTERS_TABLE else FIGURES_TABLE
  }

  /** `toupper` of the C locale. */
  function Upper(c: char): char {
    if 'a' <= c <= 'z' then (c as int - 'a' as int + 'A' as int) as char else c
  }

  /** The scan from index `i` on: at each index letters are tried before figures. */
  function ScanIn(letters: seq<char>, figures: seq<char>, c: char, i: nat): Option<Code>
    requires i <= |letters| == |figures|
    decreases |letters| - i
  {
    if i == |letters| then None
    else if c == letters[i] then Some(Code(Letters, i))
    else if c == figures[i] then Some(Code(Figures, i))
    else ScanIn(letters, figures, c, i + 1)
  }

  function Scan(c: char, i: nat): Option<Code>
    requires i <= 32
  {
    ScanIn(LETTERS_TABLE, FIGURES_TABLE, c, i)
  }

  predicate Within(letters: seq<char>, figures: seq<char>, c: char, i: nat, n: nat)
    requires n <= |letters| && n <= |figures|
  {
    exists k :: i <= k < n && (letters[k] == c || figures[k] == c)
  }

  /** What a scan of two tables finds: the first place where the character stands, in
      letters case if it stands in both tables there. */
  predicate FoundFirst(letters: seq<char>, figures: seq<char>, c: char, i: nat, r: Option<Code>)
    requires |letters| == |figures|
  {
    match r
    case None => !Within(letters, figures, c, i, |letters|)
    case Some(Code(shift, k)) =>
      && i <= k < |letters|
      && !Within(letters, figures, c, i, k)
      && (shift == Letters <==> letters[k] == c)
      && (shift == Figures ==> figures[k] == c)
  }

  lemma {:induction false} ScanInFinds(letters: seq<char>, figures: seq<char>, c: char, i: nat)
    requires i <= |letters| == |figures|
    ensures FoundFirst(letters, figures, c, i, ScanIn(letters, figures, c, i))
    decreases |letters| - i
  {
    if i < |letters| { ScanInFinds(letters, figures, c, i + 1); }
  }

  /** The scan finds the first place where the character stands, and misses none. */
  lemma ScanFinds(c: char, i: nat)
    requires i <= 32
    ensures FoundFirst(LETTERS_TABLE, FIGURES_TABLE, c, i, Scan(c, i))
  {
    ScanInFinds(LETTERS_TABLE, FIGURES_TABLE, c, i);
  }

  /** The code of `c`, if it has one: a space is always a letter. */
  function Lookup(c: char): Option<Code> {
    if Upper(c) == ' ' then Some(Code(Letters, SPACE_BITS)) else Scan(Upper(c), 0)
  }

  /** `FSK::baudot_enc` as a value: an unencodable character becomes code 4 in
      whatever case the sender is in. */
  function Encode(c: char, shift: Case): Code {
    match Lookup(c)
    case Some(code) => code
    case None => Code(shift, SPACE_BITS)
  }

  /** Whether a character stands in one of the tables. */
  predicate InTables(c: char) {
    exists i :: 0 <= i < 32 && (LETTERS_TABLE[i] == c || FIGURES_TABLE[i] == c)
  }

  /** What a character looks like on paper at the other end. */
  function Shown(c: char): char {
    if InTables(Upper(c)) then Upper(c) else ' '
  }

  function ShownAll(s: string): (t: string)
    ensures |t| == |s|
  {
    if s == [] then [] else [Shown(s[0])] + ShownAll(s[1..])
  }

  lemma {:induction false} ShownAllAppend(s: string, t: string)
    ensures ShownAll(s + t) == ShownAll(s) + ShownAll(t)
  {
    Front(s, t);
    if s != [] {
      ShownAllAppend(s[1..], t);
      Assoc([Shown(s[0])], ShownAll(s[1..]), ShownAll(t));
    }
  }

  // ---- The printing receiver -------------------------------------------

  /** The receiver's case after a code.  With `unshift` set it falls back to
      letters on every space code. */
  function CaseAfter(code: nat, shift: Case, unshift: bool): Case {
    if code == LTRS then Letters
    else if code == FIGS then Figures
    else if unshift && code == SPACE_BITS then Letters
    else shift
  }

  function CaseAfterAll(codes: seq<nat>, shift: Case, unshift: bool): Case {
    if codes == [] then shift
    else CaseAfterAll(codes[1..], CaseAfter(codes[0], shift, unshift), unshift)
  }

  function Strike(code: nat, shift: Case): seq<Code> {
    if code == LTRS || code == FIGS then [] else [Code(shift, code)]
  }

  /** What the receiver's print head is asked to strike for a run of codes: a
      position in one of the two tables for each code that is not a shift. */
  function Strikes(codes: seq<nat>, shift: Case, unshift: bool): seq<Code> {
    if codes == [] then []
    else Strike(codes[0], shift) + Strikes(codes[1..], CaseAfter(codes[0], shift, unshift), unshift)
  }

  lemma {:induction false} CaseAfterAppend(a: seq<nat>, b: seq<nat>, shift: Case, unshift: bool)
    ensures CaseAfterAll(a + b, shift, unshift) == CaseAfterAll(b, CaseAfterAll(a, shift, unshift), unshift)
  {
    Front(a, b);
    if a != [] {
      CaseAfterAppend(a[1..], b, CaseAfter(a[0], shift, unshift), unshift);
    }
  }

  lemma {:induction false} StrikesAppend(a: seq<nat>, b: seq<nat>, shift: Case, unshift: bool)
    ensures Strikes(a + b, shift, unshift)
         == Strikes(a, shift, unshift) + Strikes(b, CaseAfterAll(a, shift, unshift), unshift)
  {
    Front(a, b);
    if a != [] {
      var k := CaseAfter(a[0], shift, unshift);
      StrikesAppend(a[1..], b, k, unshift);
      Assoc(Strike(a[0], shift), Strikes(a[1..], k, unshift),
              Strikes(b, CaseAfterAll(a, shift, unshift), unshift));
    }
  }

  /** The character at one position. */
  function Glyph(at: Code): char {
    if at.bits < 32 then Table(at.shift)[at.bits] else ' '
  }

  function Paper(strikes: seq<Code>): (t: string)
    ensures |t| == |strikes|
  {
    if strikes == [] then "" else [Glyph(strikes[0])] + Paper(strikes[1..])
  }

  /** What the receiver prints, starting in case `shift`. */
  function Display(codes: seq<nat>, shift: Case, unshift: bool): string {
    Paper(Strikes(codes, shift, unshift))
  }

  // ---- What the encoder promises ----------------------------------------

  /** A data code is never one of the two shift codes, in five bits, and in the
      case it was encoded for it prints the character. */
  lemma EncodePrints(c: char, shift: Case)
    ensures var e := Encode(c, shift);
      && e.bits < 32 && e.bits != LTRS && e.bits != FIGS && Glyph(e) == Shown(c)
  {
    var u := Upper(c);
    ScanFinds(u, 0);
    assert LETTERS_TABLE[4] == ' ' && FIGURES_TABLE[4] == ' ';
    if u != ' ' {
      assert forall s: Case :: Table(s)[27] == ' ' && Table(s)[31] == ' ';
    }
  }

  /** What every receiver may rely on about the code of a character: it is not a shift
      code, and a space code is a letter or an unencodable character. */
  predicate IsCode(e: Code, encodable: bool, shift: Case) {
    && e.bits < 32 && e.bits != LTRS && e.bits != FIGS
    && (!encodable ==> e == Code(shift, SPACE_BITS))
    && (encodable && e.bits == SPACE_BITS ==> e.shift == Letters)
  }

  /** Furthermore a figure prints differently in letters case, and a space alike in both. */
  lemma CodeFacts(c: char, shift: Case)
    ensures IsCode(Encode(c, shift), Lookup(c).Some?, shift)
    ensures Lookup(c).Some? ==> Lookup(c).value == Encode(c, shift)
    ensures Lookup(c).Some? <==> InTables(Upper(c))
    ensures Lookup(c).Some? && Encode(c, shift).shift == Figures
        ==> Glyph(Code(Letters, Encode(c, shift).bits)) != Glyph(Encode(c, shift))
    ensures Glyph(Code(Letters, SPACE_BITS)) == Glyph(Code(Figures, SPACE_BITS))
  {
    EncodePrints(c, shift);
    ScanFinds(Upper(c), 0);
    assert LETTERS_TABLE[4] == ' ' && FIGURES_TABLE[4] == ' ';
  }
}
