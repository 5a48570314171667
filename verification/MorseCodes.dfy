/** The codes that `src/cwio/morse.cxx` has to give, independent of its table: International
    Morse, character by character. */
module MorseCodes {
  import opened Common
  import opened Morse

  function LetterCode(c: char): string {
    match c
    case 'A' => ".-"  case 'B' => "-..."  case 'C' => "-.-."
    case 'D' => "-.."  case 'E' => "."  case 'F' => "..-."
    case 'G' => "--."  case 'H' => "...."  case 'I' => ".."
    case 'J' => ".---"  case 'K' => "-.-"  case 'L' => ".-.."
    case 'M' => "--"  case 'N' => "-."  case 'O' => "---"
    case 'P' => ".--."  case 'Q' => "--.-"  case 'R' => ".-."
    case 'S' => "..."  case 'T' => "-"  case 'U' => "..-"
    case 'V' => "...-"  case 'W' => ".--"  case 'X' => "-..-"
    case 'Y' => "-.--"  case 'Z' => "--.."
    case _ => ""
  }

  function DigitCode(c: char): string {
    match c
    case '0' => "-----"  case '1' => ".----"  case '2' => "..---"
    case '3' => "...--"  case '4' => "....-"  case '5' => "....."
    case '6' => "-...."  case '7' => "--..."  case '8' => "---.."
    case '9' => "----."
    case _ => ""
  }

  function PunctCode(c: char): string {
    match c
    case '\"' => ".-..-."  case '\'' => ".----."  case '$' => "...-..-"
    case '(' => "-.--."  case ')' => "-.--.-"  case ',' => "--..--"
    case '-' => "-....-"  case '.' => ".-.-.-"  case '/' => "-..-."
    case ':' => "---..."  case ';' => "-.-.-."  case '?' => "..--.."
    case '_' => "..--.-"  case '@' => ".--.-."  case '!' => "-.-.--"
    case _ => ""
  }

  /** The accented letters, by the second byte of their UTF-8 form; the first is 0xC3. */
  function AccentCode(second: Byte): string {
    if second in {0x84, 0xA4, 0x86, 0xA6} then ".-.-"
    else if second in {0x85, 0xA5} then ".--.-"
    else if second in {0x87, 0xA7} then "-.-.."
    else if second in {0x88, 0xA8} then ".-..-"
    else if second in {0x89, 0xA9} then "..-.."
    else if second in {0x93, 0xB3, 0x96, 0xB6, 0x98, 0xB8} then "---."
    else if second in {0x91, 0xB1} then "--.--"
    else if second in {0x9C, 0xBC, 0x9B, 0xBB} then "..--"
    else ""
  }

  /** The prosigns, in the order of their configured characters: BT, AA, AS, AR, SK, KN,
      INT, HM and VE. */
  function ProsignCode(k: nat): string {
    if k == 0 then "-...-"
    else if k == 1 then ".-.-"
    else if k == 2 then ".-..."
    else if k == 3 then ".-.-."
    else if k == 4 then "...-.-"
    else if k == 5 then "-.--."
    else if k == 6 then "..-.-"
    else if k == 7 then "....--"
    else if k == 8 then "...-."
    else ""
  }

  /** The code of an ASCII character that no prosign is configured on. */
  function Standard(c: Byte): string
    requires c < 0x80
  {
    if 'A' as int <= c <= 'Z' as int then LetterCode(c as char)
    else if 'a' as int <= c <= 'z' as int then LetterCode((c - 'a' as int + 'A' as int) as char)
    else if '0' as int <= c <= '9' as int then DigitCode(c as char)
    else PunctCode(c as char)
  }

  // ---- The tables hold them -----------------------------------------------------------

  lemma UpperAt(k: nat)
    requires k < 26
    ensures |UPPER| == 26 && UPPER[k] == Entry(['A' as int + k], LetterCode(('A' as int + k) as char))
    ensures UPPER[k].rpr != ""
  {
  }

  lemma LowerAtoM(k: nat)
    requires k < 13
    ensures |LOWER| == 26 && LOWER[k] == Entry(['a' as int + k], LetterCode(('A' as int + k) as char))
  {
  }

  lemma LowerNtoZ(k: nat)
    requires 13 <= k < 26
    ensures |LOWER| == 26 && LOWER[k] == Entry(['a' as int + k], LetterCode(('A' as int + k) as char))
  {
  }

  lemma LowerAt(k: nat)
    requires k < 26
    ensures |LOWER| == 26 && LOWER[k] == Entry(['a' as int + k], LetterCode(('A' as int + k) as char))
  {
    if k < 13 { LowerAtoM(k); } else { LowerNtoZ(k); }
  }

  lemma DigitAt(k: nat)
    requires k < 10
    ensures |DIGITS| == 10 && DIGITS[k] == Entry(['0' as int + k], DigitCode(('0' as int + k) as char))
  {
  }

  lemma PunctAt(k: nat)
    requires k < |PUNCT|
    ensures |PUNCT[k].chr| == 1 && PUNCT[k].chr[0] < 0x80
    ensures PUNCT[k].rpr == PunctCode(PUNCT[k].chr[0] as char) != ""
  {
  }

  lemma PunctHas(c: Byte)
    requires c < 0x80 && PunctCode(c as char) != ""
    ensures Entry([c], PunctCode(c as char)) in PUNCT
  {
  }

  lemma AccentAt(k: nat)
    requires k < |ACCENT|
    ensures |ACCENT[k].chr| == 2 && ACCENT[k].chr[0] == 0xC3 && ACCENT[k].rpr == AccentCode(ACCENT[k].chr[1])
  {
  }

  lemma AccentHas(second: Byte)
    requires AccentCode(second) != ""
    ensures Entry([0xC3, second], AccentCode(second)) in ACCENT
  {
  }

  lemma ProsignAt(k: nat)
    requires k < PROSIGNS
    ensures PROSIGN_CODES[k] == ProsignCode(k) != ""
  {
  }

  lemma FivePieces<A>(a: seq<A>, b: seq<A>, c: seq<A>, d: seq<A>, e: seq<A>, x: A)
    ensures x in a + b + c + d + e <==> x in a || x in b || x in c || x in d || x in e
  {
  }

  lemma InFixed(x: Entry)
    ensures x in FIXED <==> x in UPPER || x in LOWER || x in DIGITS || x in PUNCT || x in ACCENT
  {
    FivePieces(UPPER, LOWER, DIGITS, PUNCT, ACCENT, x);
  }

  /** What stands in the fixed part of the table is standard. */
  lemma FixedIsStandard(x: Entry)
    requires x in FIXED
    ensures if |x.chr| == 1 then x.chr[0] < 0x80 && x.rpr == Standard(x.chr[0])
            else |x.chr| == 2 && x.chr[0] == 0xC3 && x.rpr == AccentCode(x.chr[1])
  {
    InFixed(x);
    if x in UPPER {
      var k :| 0 <= k < |UPPER| && UPPER[k] == x;
      UpperAt(k);
    } else if x in LOWER {
      var k :| 0 <= k < |LOWER| && LOWER[k] == x;
      LowerAt(k);
    } else if x in DIGITS {
      var k :| 0 <= k < |DIGITS| && DIGITS[k] == x;
      DigitAt(k);
    } else if x in PUNCT {
      var k :| 0 <= k < |PUNCT| && PUNCT[k] == x;
      PunctAt(k);
      NotAlphanumeric(x.chr[0]);
    } else {
      var k :| 0 <= k < |ACCENT| && ACCENT[k] == x;
      AccentAt(k);
    }
  }

  lemma NotAlphanumeric(c: Byte)
    requires c < 0x80 && PunctCode(c as char) != ""
    ensures Standard(c) == PunctCode(c as char)
  {
  }

  lemma StandardInFixed(c: Byte)
    requires c < 0x80 && Standard(c) != ""
    ensures Entry([c], Standard(c)) in FIXED
  {
    InFixed(Entry([c], Standard(c)));
    if 'A' as int <= c <= 'Z' as int { UpperAt(c - 'A' as int); }
    else if 'a' as int <= c <= 'z' as int { LowerAt(c - 'a' as int); }
    else if '0' as int <= c <= '9' as int { DigitAt(c - '0' as int); }
    else { PunctHas(c); }
  }

  // ---- And the lookup gives them --------------------------------------------------------

  /** Where an entry of the table comes from. */
  lemma TableEntry(prosigns: seq<Byte>, k: nat)
    requires |prosigns| == PROSIGNS && k < |Table(prosigns)| - 1
    ensures if k < PROSIGNS then Table(prosigns)[k] == Entry([prosigns[k]], ProsignCode(k))
            else Table(prosigns)[k] in FIXED
  {
    TwoPieces(ProsignEntries(prosigns), FIXED, LAST, k);
    if k < PROSIGNS { ProsignAt(k); }
  }

  lemma TwoPieces(a: seq<Entry>, b: seq<Entry>, c: seq<Entry>, k: nat)
    requires |c| == 1 && k < |a + (b + c)| - 1
    ensures if k < |a| then (a + (b + c))[k] == a[k] else (a + (b + c))[k] in b
  {
    if k >= |a| { assert (a + (b + c))[k] == b[k - |a|]; }
  }

  lemma FixedInTable(prosigns: seq<Byte>, x: Entry) returns (k: nat)
    requires |prosigns| == PROSIGNS && x in FIXED
    ensures k < |Table(prosigns)| - 1 && Table(prosigns)[k] == x
  {
    k := PieceAt(ProsignEntries(prosigns), FIXED, LAST, x);
  }

  lemma PieceAt(a: seq<Entry>, b: seq<Entry>, c: seq<Entry>, x: Entry) returns (k: nat)
    requires |c| == 1 && x in b
    ensures k < |a + (b + c)| - 1 && (a + (b + c))[k] == x
  {
    var i :| 0 <= i < |b| && b[i] == x;
    k := |a| + i;
  }

  /** Every ASCII character that no prosign is configured on has its standard code, and none
      if it has no standard one. */
  lemma AsciiCodes(prosigns: seq<Byte>, c: Byte)
    requires |prosigns| == PROSIGNS && c < 0x80 && c !in prosigns
    ensures WellFormed(Table(prosigns)) && LookupStep(Table(prosigns), [], c) == ([], Standard(c))
  {
    TableIsWellFormed(prosigns);
    var table := Table(prosigns);
    var r := Find(table, [c], 0);
    assert [] + [c] == [c];
    if r != "" {
      var k :| 0 <= k < |table| && table[k] == Entry([c], r);
      TableEntry(prosigns, k);
      FixedIsStandard(table[k]);
    } else if Standard(c) != "" {
      StandardInFixed(c);
      var k := FixedInTable(prosigns, Entry([c], Standard(c)));
    }
  }

  /** A configured character has the code of the first prosign it is configured for. */
  lemma ProsignCodes(prosigns: seq<Byte>, k: nat)
    requires |prosigns| == PROSIGNS && k < PROSIGNS && forall j :: 0 <= j < k ==> prosigns[j] != prosigns[k]
    ensures WellFormed(Table(prosigns)) && Find(Table(prosigns), [prosigns[k]], 0) == ProsignCode(k) != ""
  {
    TableIsWellFormed(prosigns);
    var table, c := Table(prosigns), prosigns[k];
    TableEntry(prosigns, k);
    ProsignAt(k);
    var i :| 0 <= i < |table| && table[i] == Entry([c], Find(table, [c], 0))
             && forall j :: 0 <= j < i ==> table[j].chr != [c];
    if i < k { TableEntry(prosigns, i); }
  }

  /** The accented letters have theirs, and no other character of two bytes has any. */
  lemma AccentCodes(prosigns: seq<Byte>, second: Byte)
    requires |prosigns| == PROSIGNS
    ensures WellFormed(Table(prosigns)) && Find(Table(prosigns), [0xC3, second], 0) == AccentCode(second)
  {
    TableIsWellFormed(prosigns);
    var table, chr := Table(prosigns), [0xC3, second];
    var r := Find(table, chr, 0);
    if r != "" {
      var k :| 0 <= k < |table| && table[k] == Entry(chr, r);
      TableEntry(prosigns, k);
      FixedIsStandard(table[k]);
    } else if AccentCode(second) != "" {
      AccentHas(second);
      InFixed(Entry(chr, AccentCode(second)));
      var k := FixedInTable(prosigns, Entry(chr, AccentCode(second)));
    }
  }
}
