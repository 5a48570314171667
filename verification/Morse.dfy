/** The Morse lookup of `src/cwio/morse.cxx`: a table of UTF-8 characters, matched
    one byte at a time. */
module Morse {
  import opened Common

  /** CWstruct: the UTF-8 bytes of a character and its dots and dashes. */
  datatype Entry = Entry(chr: seq<Byte>, rpr: string)

  function Ascii(c: char, rpr: string): Entry
    requires c < 128 as char
  {
    Entry([c as int], rpr)
  }

  function Accented(second: Byte, rpr: string): Entry {
    Entry([0xC3, second], rpr)
  }

  const PROSIGN_CODES: seq<string> := [
    "-...-", ".-.-", ".-...", ".-.-.", "...-.-", "-.--.", "..-.-", "....--", "...-."
  ]

  const UPPER: seq<Entry> := [
    Ascii('A', ".-"), Ascii('B', "-..."), Ascii('C', "-.-."), Ascii('D', "-.."),
    Ascii('E', "."), Ascii('F', "..-."), Ascii('G', "--."), Ascii('H', "...."),
    Ascii('I', ".."), Ascii('J', ".---"), Ascii('K', "-.-"), Ascii('L', ".-.."),
    Ascii('M', "--"), Ascii('N', "-."), Ascii('O', "---"), Ascii('P', ".--."),
    Ascii('Q', "--.-"), Ascii('R', ".-."), Ascii('S', "..."), Ascii('T', "-"),
    Ascii('U', "..-"), Ascii('V', "...-"), Ascii('W', ".--"), Ascii('X', "-..-"),
    Ascii('Y', "-.--"), Ascii('Z', "--..")
  ]

  const LOWER: seq<Entry> := [
    Ascii('a', ".-"), Ascii('b', "-..."), Ascii('c', "-.-."), Ascii('d', "-.."),
    Ascii('e', "."), Ascii('f', "..-."), Ascii('g', "--."), Ascii('h', "...."),
    Ascii('i', ".."), Ascii('j', ".---"), Ascii('k', "-.-"), Ascii('l', ".-.."),
    Ascii('m', "--"), Ascii('n', "-."), Ascii('o', "---"), Ascii('p', ".--."),
    Ascii('q', "--.-"), Ascii('r', ".-."), Ascii('s', "..."), Ascii('t', "-"),
    Ascii('u', "..-"), Ascii('v', "...-"), Ascii('w', ".--"), Ascii('x', "-..-"),
    Ascii('y', "-.--"), Ascii('z', "--..")
  ]

  const DIGITS: seq<Entry> := [
    Ascii('0', "-----"), Ascii('1', ".----"), Ascii('2', "..---"), Ascii('3', "...--"),
    Ascii('4', "....-"), Ascii('5', "....."), Ascii('6', "-...."), Ascii('7', "--..."),
    Ascii('8', "---.."), Ascii('9', "----.")
  ]

  const PUNCT: seq<Entry> := [
    Ascii('\"', ".-..-."), Ascii('\'', ".----."), Ascii('$', "...-..-"), Ascii('(', "-.--."),
    Ascii(')', "-.--.-"), Ascii(',', "--..--"), Ascii('-', "-....-"), Ascii('.', ".-.-.-"),
    Ascii('/', "-..-."), Ascii(':', "---..."), Ascii(';', "-.-.-."), Ascii('?', "..--.."),
    Ascii('_', "..--.-"), Ascii('@', ".--.-."), Ascii('!', "-.-.--")
  ]

  /** The accented letters, all in the block that UTF-8 begins with 0xC3. */
  const ACCENT: seq<Entry> := [
    Accented(0x84, ".-.-"), Accented(0xA4, ".-.-"), Accented(0x86, ".-.-"),
    Accented(0xA6, ".-.-"), Accented(0x85, ".--.-"), Accented(0xA5, ".--.-"),
    Accented(0x87, "-.-.."), Accented(0xA7, "-.-.."), Accented(0x88, ".-..-"),
    Accented(0xA8, ".-..-"), Accented(0x89, "..-.."), Accented(0xA9, "..-.."),
    Accented(0x93, "---."), Accented(0xB3, "---."), Accented(0x96, "---."),
    Accented(0xB6, "---."), Accented(0x98, "---."), Accented(0xB8, "---."),
    Accented(0x91, "--.--"), Accented(0xB1, "--.--"), Accented(0x9C, "..--"),
    Accented(0xBC, "..--"), Accented(0x9B, "..--"), Accented(0xBB, "..--")
  ]

  const FIXED: seq<Entry> := UPPER + LOWER + DIGITS + PUNCT + ACCENT

  const LAST: seq<Entry> := [Entry([], "")]

  const PROSIGNS: nat := 9

  function ProsignEntries(prosigns: seq<Byte>): seq<Entry>
    requires |prosigns| == PROSIGNS
  {
    seq(PROSIGNS, i requires 0 <= i < PROSIGNS => Entry([prosigns[i]], PROSIGN_CODES[i]))
  }

  /** cw_table with the prosign characters `init` last copied in: one byte each,
      whatever byte that is. */
  function Table(prosigns: seq<Byte>): seq<Entry>
    requires |prosigns| == PROSIGNS
  {
    ProsignEntries(prosigns) + (FIXED + LAST)
  }

  /** What `init` does to a table. */
  function Overwritten(table: seq<Entry>, prosigns: seq<Byte>): seq<Entry>
    requires |prosigns| == PROSIGNS <= |table|
  {
    seq(|table|, i requires 0 <= i < |table| => if i < PROSIGNS then table[i].(chr := [prosigns[i]]) else table[i])
  }

  lemma NewProsigns(before: seq<Byte>, prosigns: seq<Byte>)
    requires |before| == |prosigns| == PROSIGNS
    ensures |Table(before)| >= PROSIGNS && Overwritten(Table(before), prosigns) == Table(prosigns)
  {
    NewFront(ProsignEntries(before), ProsignEntries(prosigns), FIXED + LAST, prosigns);
  }

  lemma NewFront(a: seq<Entry>, b: seq<Entry>, rest: seq<Entry>, prosigns: seq<Byte>)
    requires |a| == |b| == |prosigns| == PROSIGNS
    requires forall i :: 0 <= i < PROSIGNS ==> b[i] == a[i].(chr := [prosigns[i]])
    ensures Overwritten(a + rest, prosigns) == b + rest
  {
  }

  /** What the lookup needs of a table: it ends with the one entry without a code,
      and every other entry is one byte or two bytes beginning with 0xC3. */
  predicate WellFormed(table: seq<Entry>) {
    && table != [] && table[|table| - 1].rpr == ""
    && forall i :: 0 <= i < |table| - 1 ==> GoodEntry(table[i])
  }

  predicate GoodEntry(e: Entry) {
    && e.rpr != ""
    && (|e.chr| == 1 || (|e.chr| == 2 && e.chr[0] == 0xC3))
  }

  predicate AllGood(entries: seq<Entry>) {
    forall i :: 0 <= i < |entries| ==> GoodEntry(entries[i])
  }

  lemma UpperIsGood()
    ensures AllGood(UPPER)
  {
  }

  lemma LowerIsGood()
    ensures AllGood(LOWER)
  {
  }

  lemma DigitsAreGood()
    ensures AllGood(DIGITS)
  {
  }

  lemma PunctIsGood()
    ensures AllGood(PUNCT)
  {
  }

  lemma AccentIsGood()
    ensures AllGood(ACCENT)
  {
  }

  lemma GoodAppend(a: seq<Entry>, b: seq<Entry>)
    requires AllGood(a) && AllGood(b)
    ensures AllGood(a + b)
  {
  }

  lemma FixedIsGood()
    ensures AllGood(FIXED)
  {
    UpperIsGood();
    LowerIsGood();
    DigitsAreGood();
    PunctIsGood();
    AccentIsGood();
    GoodAppend(UPPER, LOWER);
    GoodAppend(UPPER + LOWER, DIGITS);
    GoodAppend(UPPER + LOWER + DIGITS, PUNCT);
    GoodAppend(UPPER + LOWER + DIGITS + PUNCT, ACCENT);
  }

  lemma ProsignsAreGood(prosigns: seq<Byte>)
    requires |prosigns| == PROSIGNS
    ensures AllGood(ProsignEntries(prosigns))
  {
  }

  lemma TableIsWellFormed(prosigns: seq<Byte>)
    requires |prosigns| == PROSIGNS
    ensures WellFormed(Table(prosigns))
  {
    FixedIsGood();
    ProsignsAreGood(prosigns);
    EndedIsWellFormed(ProsignEntries(prosigns), FIXED);
  }

  lemma EndedIsWellFormed(a: seq<Entry>, b: seq<Entry>)
    requires AllGood(a) && AllGood(b)
    ensures WellFormed(a + (b + LAST))
  {
    GoodAppend(a, b);
    assert a + (b + LAST) == (a + b) + LAST;
  }

  /** The table scan: the first entry that matches, up to the one without a code. */
  function Find(table: seq<Entry>, chr: seq<Byte>, i: nat): (rpr: string)
    requires WellFormed(table) && i < |table|
    ensures rpr != "" ==>
      exists k :: i <= k < |table| && table[k] == Entry(chr, rpr) && forall j :: i <= j < k ==> table[j].chr != chr
    ensures rpr == "" ==> forall k :: i <= k < |table| - 1 ==> table[k].chr != chr
    decreases |table| - i
  {
    if table[i].rpr == "" then ""
    else if table[i].chr == chr then table[i].rpr
    else Find(table, chr, i + 1)
  }

  /** One call of `tx_lookup`: the buffer it leaves and the code it returns. */
  function LookupStep(table: seq<Entry>, buf: seq<Byte>, b: Byte): (seq<Byte>, string)
    requires WellFormed(table)
  {
    var u := buf + [b];
    if u[0] > 0x7F && |u| == 1 then (u, "") else ([], Find(table, u, 0))
  }

  /** What `tx_lookup` keeps between calls: nothing, or one byte that is not ASCII. */
  predicate Idle(buf: seq<Byte>) { buf == [] || (|buf| == 1 && buf[0] >= 0x80) }

  lemma BufferStaysIdle(table: seq<Entry>, buf: seq<Byte>, b: Byte)
    requires WellFormed(table) && Idle(buf)
    ensures Idle(LookupStep(table, buf, b).0)
    ensures b < 0x80 ==> LookupStep(table, buf, b).0 == []
  {
  }

  /** The buffer and the non-empty results of successive calls. */
  function Stream(table: seq<Entry>, buf: seq<Byte>, bytes: seq<Byte>): (seq<Byte>, seq<string>)
    requires WellFormed(table)
    decreases |bytes|
  {
    if bytes == [] then (buf, [])
    else
      var (buf1, code) := LookupStep(table, buf, bytes[0]);
      var (buf2, codes) := Stream(table, buf1, bytes[1..]);
      (buf2, (if code == "" then [] else [code]) + codes)
  }

  lemma {:induction false} StreamAppend(table: seq<Entry>, buf: seq<Byte>, a: seq<Byte>, b: seq<Byte>)
    requires WellFormed(table)
    ensures var (buf1, codes1) := Stream(table, buf, a);
      var (buf2, codes2) := Stream(table, buf1, b);
      Stream(table, buf, a + b) == (buf2, codes1 + codes2)
    decreases |a|
  {
    if a == [] {
      assert a + b == b && [] + Stream(table, buf, b).1 == Stream(table, buf, b).1;
    } else {
      assert (a + b)[1..] == a[1..] + b;
      var (buf0, code) := LookupStep(table, buf, a[0]);
      StreamAppend(table, buf0, a[1..], b);
      var (buf1, codes1) := Stream(table, buf0, a[1..]);
      var head, codes2 := if code == "" then [] else [code], Stream(table, buf1, b).1;
      assert head + (codes1 + codes2) == head + codes1 + codes2;
    }
  }

  // ---- Code points --------------------------------------------------------

  type CodePoint = c: int | 0 <= c < 0x110000

  /** UTF-8, RFC 3629 section 3. */
  function Utf8(c: CodePoint): seq<Byte> {
    if c < 0x80 then [c]
    else if c < 0x800 then [0xC0 + c / 64, 0x80 + c % 64]
    else if c < 0x10000 then [0xE0 + c / 4096, 0x80 + c / 64 % 64, 0x80 + c % 64]
    else [0xF0 + c / 262144, 0x80 + c / 4096 % 64, 0x80 + c / 64 % 64, 0x80 + c % 64]
  }

  /** The bytes hold the code point, six bits in each behind the first; what the first and
      the others are marked with is taken off. */
  lemma Utf8Holds(c: CodePoint)
    ensures c < 0x80 ==> Utf8(c) == [c]
    ensures 0x80 <= c < 0x800 ==> |Utf8(c)| == 2 && Joined(Utf8(c)[0], Utf8(c)[1]) == c + 0x3080
    ensures 0x800 <= c < 0x10000 ==>
      |Utf8(c)| == 3 && Joined(Joined(Utf8(c)[0], Utf8(c)[1]), Utf8(c)[2]) == c + 0xE2080
    ensures 0x10000 <= c ==>
      |Utf8(c)| == 4 && Joined(Joined(Joined(Utf8(c)[0], Utf8(c)[1]), Utf8(c)[2]), Utf8(c)[3]) == c + 0x3C82080
  {
    SixBits(c);
    SixBits(c / 64);
    SixBits(c / 4096);
    assert c / 64 / 64 == c / 4096 && c / 4096 / 64 == c / 262144;
  }

  function Joined(high: int, low: int): int { 64 * high + low }

  lemma SixBits(n: nat)
    ensures n == 64 * (n / 64) + n % 64
  {
  }

  function Utf8All(text: seq<CodePoint>): seq<Byte> {
    if text == [] then [] else Utf8(text[0]) + Utf8All(text[1..])
  }

  // ---- One character, byte by byte --------------------------------------------

  /** The code of a character, looked up whole. */
  function CodeOf(table: seq<Entry>, c: CodePoint): string
    requires WellFormed(table)
  {
    Find(table, Utf8(c), 0)
  }

  /** A left-over byte: the last one of a character of three. */
  predicate Stale(buf: seq<Byte>) { |buf| == 1 && 0x80 <= buf[0] < 0xC0 }

  /** No entry is longer than two bytes, and none of two begins with another byte than 0xC3. */
  lemma NoMatch(table: seq<Entry>, u: seq<Byte>)
    requires WellFormed(table) && (|u| > 2 || (|u| == 2 && u[0] != 0xC3))
    ensures Find(table, u, 0) == ""
  {
  }

  lemma SilentStep(table: seq<Entry>, buf: seq<Byte>, b: Byte, rest: seq<Byte>)
    requires WellFormed(table) && LookupStep(table, buf, b).1 == ""
    ensures Stream(table, buf, [b] + rest) == Stream(table, LookupStep(table, buf, b).0, rest)
  {
    var bytes := [b] + rest;
    assert bytes[1..] == rest;
    var (buf1, code) := LookupStep(table, buf, b);
    assert [] + Stream(table, buf1, rest).1 == Stream(table, buf1, rest).1;
  }

  lemma LastStep(table: seq<Entry>, buf: seq<Byte>, b: Byte)
    requires WellFormed(table)
    ensures var (buf1, code) := LookupStep(table, buf, b);
      Stream(table, buf, [b]) == (buf1, if code == "" then [] else [code])
  {
    var (buf1, code) := LookupStep(table, buf, b);
    var head := if code == "" then [] else [code];
    assert [b][1..] == [] && head + [] == head;
    assert Stream(table, buf1, []) == (buf1, []);
  }

  /** A left-over byte and the next one: no match, and the buffer is empty again. */
  lemma StaleStep(table: seq<Entry>, buf: seq<Byte>, b: Byte, rest: seq<Byte>)
    requires WellFormed(table) && Stale(buf)
    ensures Stream(table, buf, [b] + rest) == Stream(table, [], rest)
  {
    NoMatch(table, buf + [b]);
    SilentStep(table, buf, b, rest);
  }

  /** Two bytes that begin with one that is not ASCII are looked up as one character. */
  lemma PairStep(table: seq<Entry>, a: Byte, b: Byte, rest: seq<Byte>)
    requires WellFormed(table) && a >= 0x80
    ensures Find(table, [a, b], 0) == "" ==> Stream(table, [], [a, b] + rest) == Stream(table, [], rest)
    ensures Find(table, [a, b], 0) != "" ==> Stream(table, [], [a, b]) == ([], [Find(table, [a, b], 0)])
  {
    assert [] + [a] == [a] && [a] + [b] == [a, b] && [a] + ([b] + rest) == [a, b] + rest;
    SilentStep(table, [], a, [b] + rest);
    SilentStep(table, [], a, [b]);
    LastStep(table, [a], b);
    if Find(table, [a, b], 0) == "" { SilentStep(table, [a], b, rest); }
  }

  lemma PendingStep(table: seq<Entry>, a: Byte)
    requires WellFormed(table) && a >= 0x80
    ensures Stream(table, [], [a]) == ([a], [])
  {
    assert [] + [a] == [a];
    LastStep(table, [], a);
  }

  /** The bytes of a character: one ASCII byte, or a lead byte and continuation bytes. */
  predicate Shaped(u: seq<Byte>) {
    && 1 <= |u| <= 4
    && (|u| == 1 <==> u[0] < 0x80)
    && (|u| > 1 ==> u[0] >= 0xC0) && (|u| > 2 ==> u[0] >= 0xE0)
    && forall i :: 1 <= i < |u| ==> 0x80 <= u[i] < 0xC0
  }

  lemma Utf8Shape(c: CodePoint)
    ensures Shaped(Utf8(c))
    ensures |Utf8(c)| == if c < 0x80 then 1 else if c < 0x800 then 2 else if c < 0x10000 then 3 else 4
  {
  }

  /** What the calls for one character do. */
  lemma OneSequence(table: seq<Entry>, buf: seq<Byte>, u: seq<Byte>)
    requires WellFormed(table) && (buf == [] || Stale(buf)) && Shaped(u)
    ensures var (buf1, codes) := Stream(table, buf, u);
      var code := Find(table, u, 0);
      && (buf1 == [] || Stale(buf1))
      && Stale(buf1) == (if |u| == 1 then false else if |u| == 3 then !Stale(buf) else Stale(buf))
      && codes == if Stale(buf) || code == "" then [] else [code]
  {
    if |u| > 2 { NoMatch(table, u); }
    if Stale(buf) {
      assert u == [u[0]] + u[1..];
      StaleStep(table, buf, u[0], u[1..]);
      Trailing(table, u[1..]);
    } else if |u| == 1 {
      assert u == [u[0]] && [] + u == u;
      LastStep(table, [], u[0]);
    } else {
      assert u == [u[0], u[1]] + u[2..];
      PairStep(table, u[0], u[1], u[2..]);
      if |u| > 2 {
        NoMatch(table, [u[0], u[1]]);
      } else {
        assert u == [u[0], u[1]] && u[2..] == [];
      }
      Trailing(table, u[2..]);
    }
  }

  /** Up to three continuation bytes on their own: pairs vanish, an odd one stays. */
  lemma Trailing(table: seq<Entry>, t: seq<Byte>)
    requires WellFormed(table) && |t| <= 3
    requires forall i :: 0 <= i < |t| ==> 0x80 <= t[i] < 0xC0
    ensures var (buf, codes) := Stream(table, [], t);
      codes == [] && (if |t| % 2 == 1 then Stale(buf) else buf == [])
  {
    if |t| == 1 {
      assert t == [t[0]];
      PendingStep(table, t[0]);
    } else if |t| >= 2 {
      assert t == [t[0], t[1]] + t[2..];
      NoMatch(table, [t[0], t[1]]);
      PairStep(table, t[0], t[1], t[2..]);
      if |t| == 3 {
        assert t[2..] == [t[2]];
        PendingStep(table, t[2]);
      }
    }
  }

  // ---- Lengths -------------------------------------------------------------

  /** `tx_length` of a code: a dot with its gap is 2 units, a dash 4, and the gap
      after the last element is 2 longer. */
  function Marks(rpr: string): nat {
    if rpr == "" then 0 else (if rpr[0] == '.' then 2 else 4) + Marks(rpr[1..])
  }

  function LengthOf(rpr: string): nat { if rpr == "" then 0 else Marks(rpr) + 2 }

  /** Cmorse: the table and the bytes of an unfinished character. */
  class Cmorse {
    var table: seq<Entry>
    var utf8: seq<Byte>

    constructor (prosigns: seq<Byte>)
      requires |prosigns| == PROSIGNS
      ensures table == Table(prosigns) && WellFormed(table) && utf8 == []
    {
      TableIsWellFormed(prosigns);
      table, utf8 := Table(prosigns), [];
    }

    /** Copies the configured prosign characters into the first entries. */
    method Init(prosigns: seq<Byte>)
      requires |prosigns| == PROSIGNS
      requires exists before: seq<Byte> :: |before| == PROSIGNS && table == Table(before)
      modifies this`table
      ensures table == Table(prosigns) && WellFormed(table)
    {
      ghost var before :| |before| == PROSIGNS && table == Table(before);
      NewProsigns(before, prosigns);
      TableIsWellFormed(prosigns);
      Overwrite(prosigns);
    }

    /** The loop over the prosigns. */
    method Overwrite(prosigns: seq<Byte>)
      requires |prosigns| == PROSIGNS <= |table|
      modifies this`table
      ensures table == Overwritten(old(table), prosigns)
    {
      var n := 0;
      while n < PROSIGNS
        invariant 0 <= n <= PROSIGNS && |table| == |old(table)|
        invariant forall i :: 0 <= i < |table| ==>
          table[i] == if i < n then old(table)[i].(chr := [prosigns[i]]) else old(table)[i]
      {
        table := table[n := table[n].(chr := [prosigns[n]])];
        n := n + 1;
      }
      assert table == Overwritten(old(table), prosigns);
    }

    method TxLookup(c: Byte) returns (rpr: string)
      requires WellFormed(table)
      modifies this`utf8
      ensures (utf8, rpr) == LookupStep(table, old(utf8), c)
    {
      utf8 := utf8 + [c];
      if utf8[0] > 0x7F && |utf8| == 1 { return ""; }
      var i := 0;
      while table[i].rpr != ""
        invariant 0 <= i < |table|
        invariant utf8 == old(utf8) + [c]
        invariant Find(table, utf8, 0) == Find(table, utf8, i)
        decreases |table| - i
      {
        if utf8 == table[i].chr {
          utf8 := [];
          return table[i].rpr;
        }
        i := i + 1;
      }
      utf8 := [];
      return "";
    }

    method TxLength(c: Byte) returns (len: nat)
      requires WellFormed(table)
      modifies this`utf8
      ensures c == ' ' as int ==> len == 4 && utf8 == old(utf8)
      ensures c != ' ' as int ==>
        var (buf, rpr) := LookupStep(table, old(utf8), c); utf8 == buf && len == LengthOf(rpr)
    {
      if c == ' ' as int { return 4; }
      var ms := TxLookup(c);
      if ms == "" { return 0; }
      len := 0;
      for i := 0 to |ms|
        invariant len + Marks(ms[i..]) == Marks(ms)
      {
        len := len + if ms[i] == '.' then 2 else 4;
      }
      len := len + 2;
    }
  }
}
