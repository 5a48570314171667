/** The CW keyer of `src/cwio/cwio.cxx`: how long it takes, what an operator's stop
    does to the key, the PARIS calibration, and the keyer itself. */
module CwKeyer {
  import opened Common
  import opened Morse
  import opened CwWave

  // ---- Time -----------------------------------------------------------------

  /** The time the keyer asks for. */
  function Requested(acts: seq<Act>): real {
    if acts == [] then 0.0 else (if acts[0].Wait? then acts[0].span else 0.0) + Requested(acts[1..])
  }

  lemma {:induction false} RequestedAppend(a: seq<Act>, b: seq<Act>)
    ensures Requested(a + b) == Requested(a) + Requested(b)
  {
    Front(a, b);
    if a != [] { RequestedAppend(a[1..], b); }
  }

  function Dots(code: string): nat {
    if code == "" then 0 else (if code[0] == '.' then 1 else 0) + Dots(code[1..])
  }

  /** How often the correction is added, less how often it is taken away: once for
      every dot, and back at every gap inside the character. */
  function Balance(code: string): int {
    if code == "" then 0 else Dots(code) - (|code| - 1)
  }

  lemma ElementTime(code: string, n: nat, t: Timing)
    requires n < |code|
    ensures Requested(ElementActs(code, n, t))
         == ElementSpan(code[n], t) + if n == |code| - 1 then 3.0 * t.unit else t.unit - t.corr
  {
    var acts := ElementActs(code, n, t);
    assert acts[1..][1..] == acts[2..] && acts[2..][1..] == acts[3..] && acts[3..][1..] == [];
    assert Requested(acts[3..]) == acts[3].span && Requested(acts[2..]) == Requested(acts[3..]);
    assert Requested(acts[1..]) == acts[1].span + Requested(acts[2..]);
  }

  lemma {:induction false} CodeTime(code: string, n: nat, t: Timing)
    requires n < |code|
    ensures Requested(CodeActs(code, n, t, NEVER)) == TimeOf(t, LengthOf(code[n..]), Balance(code[n..]))
    decreases |code| - n
  {
    ElementTime(code, n, t);
    RequestedAppend(ElementActs(code, n, t), CodeActs(code, n + 1, t, NEVER));
    assert code[n..][1..] == code[n + 1..];
    if n < |code| - 1 {
      CodeTime(code, n + 1, t);
      var l, b := LengthOf(code[n + 1..]), Balance(code[n + 1..]);
      var dot := code[n] == '.';
      assert LengthOf(code[n..]) == l + if dot then 2 else 4;
      assert Balance(code[n..]) == b + if dot then 0 else -1;
      TimeSum(t, l, b, if dot then 2 else 4, if dot then 0 else -1);
    } else {
      assert CodeActs(code, n + 1, t, NEVER) == [];
      assert code[n..] == [code[n]] && code[n + 1..] == "";
    }
  }

  /** The time of so many units and so many corrections. */
  function TimeOf(t: Timing, units: int, balance: int): real {
    t.unit * units as real + t.corr * balance as real
  }

  lemma TimeSum(t: Timing, units: int, balance: int, units': int, balance': int)
    ensures TimeOf(t, units + units', balance + balance') == TimeOf(t, units, balance) + TimeOf(t, units', balance')
  {
  }

  /** tx_length and the correction balance of one byte, given what is in the buffer. */
  function CharUnits(table: seq<Entry>, buf: seq<Byte>, c: Byte): nat
    requires WellFormed(table)
  {
    if c == ' ' as int then 4 else LengthOf(LookupStep(table, buf, c).1)
  }

  function CharBalance(table: seq<Entry>, buf: seq<Byte>, c: Byte): int
    requires WellFormed(table)
  {
    if c == ' ' as int then 0 else Balance(LookupStep(table, buf, c).1)
  }

  /** The buffer after a byte: a space is not looked up. */
  function BufAfter(table: seq<Entry>, buf: seq<Byte>, c: Byte): seq<Byte>
    requires WellFormed(table)
  {
    if c == ' ' as int then buf else LookupStep(table, buf, c).0
  }

  /** The same, summed over a text. */
  function TextUnits(table: seq<Entry>, buf: seq<Byte>, text: seq<Byte>): nat
    requires WellFormed(table)
    decreases |text|
  {
    if text == [] then 0
    else CharUnits(table, buf, text[0]) + TextUnits(table, BufAfter(table, buf, text[0]), text[1..])
  }

  function TextBalance(table: seq<Entry>, buf: seq<Byte>, text: seq<Byte>): int
    requires WellFormed(table)
    decreases |text|
  {
    if text == [] then 0
    else CharBalance(table, buf, text[0]) + TextBalance(table, BufAfter(table, buf, text[0]), text[1..])
  }

  lemma CharTime(table: seq<Entry>, buf: seq<Byte>, c: Byte, t: Timing)
    requires WellFormed(table) && c != 0x0a
    ensures var (buf1, acts) := CharActs(table, buf, c, t, NEVER);
      && buf1 == BufAfter(table, buf, c)
      && Requested(acts) == TimeOf(t, CharUnits(table, buf, c), CharBalance(table, buf, c))
  {
    if IsSpace(c) {
      assert [Wait(4.0 * t.unit)][1..] == [];
    } else {
      var code := LookupStep(table, buf, c).1;
      if code != "" {
        CodeTime(code, 0, t);
        assert code[0..] == code;
      }
    }
  }

  /** What the bytes of a text cost, one by one. */
  datatype Cost = Cost(units: nat, balance: int)

  function Units(costs: seq<Cost>): nat { if costs == [] then 0 else costs[0].units + Units(costs[1..]) }

  function Balances(costs: seq<Cost>): int { if costs == [] then 0 else costs[0].balance + Balances(costs[1..]) }

  function Times(costs: seq<Cost>, t: Timing): real {
    if costs == [] then 0.0 else TimeOf(t, costs[0].units, costs[0].balance) + Times(costs[1..], t)
  }

  lemma {:induction false} TimesAdd(costs: seq<Cost>, t: Timing)
    ensures Times(costs, t) == TimeOf(t, Units(costs), Balances(costs))
  {
    if costs != [] {
      TimesAdd(costs[1..], t);
      TimeSum(t, costs[0].units, costs[0].balance, Units(costs[1..]), Balances(costs[1..]));
    }
  }

  lemma FirstCost(table: seq<Entry>, buf: seq<Byte>, text: seq<Byte>, t: Timing) returns (cost: Cost)
    requires WellFormed(table) && text != [] && text[0] != 0x0a
    ensures var buf1 := BufAfter(table, buf, text[0]);
      && Requested(TextActs(table, buf, text, t))
           == TimeOf(t, cost.units, cost.balance) + Requested(TextActs(table, buf1, text[1..], t))
      && TextUnits(table, buf, text) == cost.units + TextUnits(table, buf1, text[1..])
      && TextBalance(table, buf, text) == cost.balance + TextBalance(table, buf1, text[1..])
  {
    var c := text[0];
    var (buf1, acts) := CharActs(table, buf, c, t, NEVER);
    cost := Cost(CharUnits(table, buf, c), CharBalance(table, buf, c));
    CharTime(table, buf, c, t);
    RequestedAppend(acts, TextActs(table, buf1, text[1..], t));
  }

  lemma {:induction false} CostsOf(table: seq<Entry>, buf: seq<Byte>, text: seq<Byte>, t: Timing)
    returns (costs: seq<Cost>)
    requires WellFormed(table) && 0x0a !in text
    ensures Units(costs) == TextUnits(table, buf, text) && Balances(costs) == TextBalance(table, buf, text)
    ensures Times(costs, t) == Requested(TextActs(table, buf, text, t))
    decreases |text|
  {
    costs := [];
    if text != [] {
      var cost := FirstCost(table, buf, text, t);
      var rest := CostsOf(table, BufAfter(table, buf, text[0]), text[1..], t);
      costs := [cost] + rest;
      assert costs[1..] == rest;
    }
  }

  /** The text with a space for every newline: the keyer does not tell them apart. */
  function Blanked(text: seq<Byte>): seq<Byte> {
    if text == [] then [] else [if text[0] == 0x0a then ' ' as int else text[0]] + Blanked(text[1..])
  }

  lemma {:induction false} BlankedActs(table: seq<Entry>, buf: seq<Byte>, text: seq<Byte>, t: Timing)
    requires WellFormed(table)
    ensures TextActs(table, buf, Blanked(text), t) == TextActs(table, buf, text, t) && 0x0a !in Blanked(text)
    decreases |text|
  {
    if text != [] {
      BlankedActs(table, CharActs(table, buf, text[0], t, NEVER).0, text[1..], t);
      assert Blanked(text)[1..] == Blanked(text[1..]);
    }
  }

  /** For any text the keyer asks for exactly `tx_length` units a character, counting every
      newline as a space, plus the correction for every dot and less it for every inner gap. */
  lemma TextTime(table: seq<Entry>, buf: seq<Byte>, text: seq<Byte>, t: Timing)
    requires WellFormed(table)
    ensures Requested(TextActs(table, buf, text, t))
         == TimeOf(t, TextUnits(table, buf, Blanked(text)), TextBalance(table, buf, Blanked(text)))
  {
    BlankedActs(table, buf, text, t);
    var costs := CostsOf(table, buf, Blanked(text), t);
    TimesAdd(costs, t);
  }

  // ---- Newlines -----------------------------------------------------------------

  function Newlines(text: seq<Byte>): nat {
    if text == [] then 0 else (if text[0] == 0x0a then 1 else 0) + Newlines(text[1..])
  }

  /** Every newline is met with an empty lookup buffer and has no code, so that looking it
      up, as `tx_length` does and the keyer does not, changes nothing. */
  predicate Quiet(table: seq<Entry>, buf: seq<Byte>, text: seq<Byte>)
    requires WellFormed(table)
    decreases |text|
  {
    text == [] ||
    ((text[0] == 0x0a ==> buf == [] && Find(table, [0x0a], 0) == "")
     && Quiet(table, BufAfter(table, buf, text[0]), text[1..]))
  }

  lemma {:induction false} NoNewlines(table: seq<Entry>, buf: seq<Byte>, text: seq<Byte>)
    requires WellFormed(table)
    ensures Newlines(text) == 0 <==> 0x0a !in text
    ensures 0x0a !in text ==> Quiet(table, buf, text)
    decreases |text|
  {
    if text != [] {
      NoNewlines(table, BufAfter(table, buf, text[0]), text[1..]);
      assert 0x0a in text <==> text[0] == 0x0a || 0x0a in text[1..];
    }
  }

  /** ASCII text is quiet when newlines have no code. */
  lemma {:induction false} AsciiIsQuiet(table: seq<Entry>, text: seq<Byte>)
    requires WellFormed(table) && Find(table, [0x0a], 0) == ""
    requires forall i :: 0 <= i < |text| ==> text[i] < 0x80
    ensures Quiet(table, [], text)
  {
    if text != [] {
      BufferStaysIdle(table, [], text[0]);
      AsciiIsQuiet(table, text[1..]);
    }
  }

  /** A space costs 4 units and leaves the buffer; a quiet newline costs none, and does too. */
  lemma {:induction false} QuietUnits(table: seq<Entry>, buf: seq<Byte>, text: seq<Byte>)
    requires WellFormed(table) && Quiet(table, buf, text)
    ensures TextUnits(table, buf, Blanked(text)) == TextUnits(table, buf, text) + 4 * Newlines(text)
    ensures TextBalance(table, buf, Blanked(text)) == TextBalance(table, buf, text)
    decreases |text|
  {
    if text != [] {
      QuietUnits(table, BufAfter(table, buf, text[0]), text[1..]);
      assert Blanked(text)[1..] == Blanked(text[1..]);
      if text[0] == 0x0a { assert [] + [text[0]] == [text[0]]; }
    }
  }

  lemma QuietTime(table: seq<Entry>, buf: seq<Byte>, text: seq<Byte>, t: Timing)
    requires WellFormed(table) && Quiet(table, buf, text)
    ensures Requested(TextActs(table, buf, text, t))
         == TimeOf(t, TextUnits(table, buf, text) + 4 * Newlines(text), TextBalance(table, buf, text))
  {
    TextTime(table, buf, text, t);
    QuietUnits(table, buf, text);
  }

  /** While all newlines are quiet, the time is what `tx_length` says exactly when there is
      no newline; it is never less, and longer by 4 units a newline. */
  lemma NewlineExcess(table: seq<Entry>, buf: seq<Byte>, text: seq<Byte>, t: Timing)
    requires WellFormed(table) && Quiet(table, buf, text) && t.unit > 0.0
    ensures var asked, length := Requested(TextActs(table, buf, text, t)),
                                 TimeOf(t, TextUnits(table, buf, text), TextBalance(table, buf, text));
      && asked == length + 4.0 * t.unit * Newlines(text) as real
      && asked >= length
      && (asked == length <==> 0x0a !in text)
  {
    QuietTime(table, buf, text, t);
    NoNewlines(table, buf, text);
    Excess(t, Requested(TextActs(table, buf, text, t)), TextUnits(table, buf, text), TextBalance(table, buf, text),
           Newlines(text));
  }

  lemma Excess(t: Timing, asked: real, units: nat, balance: int, n: nat)
    requires t.unit > 0.0 && asked == TimeOf(t, units + 4 * n, balance)
    ensures asked == TimeOf(t, units, balance) + 4.0 * t.unit * n as real
    ensures asked >= TimeOf(t, units, balance) && (asked == TimeOf(t, units, balance) <==> n == 0)
  {
    TimeSum(t, units, balance, 4 * n, 0);
    ExcessUnits(t, n);
  }

  lemma ExcessUnits(t: Timing, n: nat)
    requires t.unit > 0.0
    ensures TimeOf(t, 4 * n, 0) == 4.0 * t.unit * n as real
    ensures TimeOf(t, 4 * n, 0) >= 0.0 && (TimeOf(t, 4 * n, 0) == 0.0 <==> n == 0)
  {
    assert (4 * n) as real == 4.0 * n as real;
    assert t.unit * (4.0 * n as real) == 4.0 * t.unit * n as real;
    if n > 0 { assert 4.0 * t.unit * n as real >= 4.0 * t.unit; }
  }

  lemma UnitsStep(table: seq<Entry>, buf: seq<Byte>, c: Byte, rest: seq<Byte>)
    requires WellFormed(table)
    ensures var buf1 := BufAfter(table, buf, c);
      && TextUnits(table, buf, [c] + rest) == CharUnits(table, buf, c) + TextUnits(table, buf1, rest)
      && TextBalance(table, buf, [c] + rest) == CharBalance(table, buf, c) + TextBalance(table, buf1, rest)
    ensures Blanked([c] + rest) == [if c == 0x0a then ' ' as int else c] + Blanked(rest)
    ensures Newlines([c] + rest) == (if c == 0x0a then 1 else 0) + Newlines(rest)
  {
    assert ([c] + rest)[1..] == rest;
  }

  /** A newline behind a left-over byte: `tx_length` uses the byte up and counts the letter
      behind the newline, and the keyer does the reverse.  So it asks for 4 units instead of
      the letter's, whatever comes next. */
  lemma LateNewline(table: seq<Entry>, b: Byte, c: Byte, rest: seq<Byte>)
    requires WellFormed(table) && Stale([b]) && c < 0x80 && !IsSpace(c) && Find(table, [c], 0) != ""
    requires Quiet(table, [], rest)
    ensures var (text, code) := ([0x0a] + ([c] + rest), Find(table, [c], 0));
      && TextUnits(table, [b], Blanked(text)) + LengthOf(code) == TextUnits(table, [b], text) + 4 * Newlines(text)
      && TextBalance(table, [b], Blanked(text)) + Balance(code) == TextBalance(table, [b], text)
  {
    assert [] + [c] == [c];
    NoMatch(table, [b] + [0x0a]);
    NoMatch(table, [b] + [c]);
    UnitsStep(table, [b], 0x0a, [c] + rest);
    UnitsStep(table, [], c, rest);
    UnitsStep(table, [b], ' ' as int, [c] + Blanked(rest));
    UnitsStep(table, [b], c, Blanked(rest));
    QuietUnits(table, [], rest);
  }

  /** A euro sign leaves its last byte. */
  lemma EuroBytes(table: seq<Entry>, rest: seq<Byte>)
    requires WellFormed(table)
    ensures TextUnits(table, [], [0xE2] + ([0x82] + ([0xAC] + rest))) == TextUnits(table, [0xAC], rest)
  {
    assert [] + [0xE2] == [0xE2] && [0xE2] + [0x82] == [0xE2, 0x82] && [] + [0xAC] == [0xAC];
    NoMatch(table, [0xE2, 0x82]);
    UnitsStep(table, [], 0xE2, [0x82] + ([0xAC] + rest));
    UnitsStep(table, [0xE2], 0x82, [0xAC] + rest);
    UnitsStep(table, [], 0xAC, rest);
  }

  /** So a euro sign, a newline and a letter longer than E take less than `tx_length` says. */
  lemma NewlineShortfall(table: seq<Entry>, c: Byte)
    requires WellFormed(table) && c < 0x80 && !IsSpace(c) && LengthOf(Find(table, [c], 0)) > 4
    ensures var text := [0xE2, 0x82, 0xAC, 0x0a, c];
      TextUnits(table, [], Blanked(text)) == 4 < TextUnits(table, [], text) == LengthOf(Find(table, [c], 0))
  {
    BlankedEuro(c);
    EuroBytes(table, [0x0a, c]);
    EuroBytes(table, [' ' as int, c]);
    assert [0xE2, 0x82, 0xAC, 0x0a, c] == [0xE2] + ([0x82] + ([0xAC] + [0x0a, c]));
    assert [0xE2, 0x82, 0xAC, ' ' as int, c] == [0xE2] + ([0x82] + ([0xAC] + [' ' as int, c]));
    BehindLeftOver(table, 0xAC, c);
  }

  lemma BlankedEuro(c: Byte)
    requires c != 0x0a
    ensures Blanked([0xE2, 0x82, 0xAC, 0x0a, c]) == [0xE2, 0x82, 0xAC, ' ' as int, c]
  {
    var text := [0xE2, 0x82, 0xAC, 0x0a, c];
    assert text[1..][1..][1..] == [0x0a, c] && [0x0a, c][1..] == [c] && [c][1..] == [];
    assert text[1..] == [0x82, 0xAC, 0x0a, c] && text[1..][1..] == [0xAC, 0x0a, c];
    assert Blanked([c]) == [c] && Blanked([0x0a, c]) == [' ' as int] + [c];
    assert Blanked(text[1..][1..]) == [0xAC] + Blanked([0x0a, c]);
    assert Blanked(text[1..]) == [0x82] + Blanked(text[1..][1..]);
    assert Blanked(text) == [0xE2] + Blanked(text[1..]);
  }

  lemma BehindLeftOver(table: seq<Entry>, b: Byte, c: Byte)
    requires WellFormed(table) && Stale([b]) && c < 0x80 && !IsSpace(c)
    ensures TextUnits(table, [b], [' ' as int, c]) == 4
    ensures TextUnits(table, [b], [0x0a, c]) == LengthOf(Find(table, [c], 0))
  {
    assert [] + [c] == [c] && [c][1..] == [] && [' ' as int, c][1..] == [c] && [0x0a, c][1..] == [c];
    NoMatch(table, [b] + [0x0a]);
    NoMatch(table, [b] + [c]);
    assert LookupStep(table, [], c).1 == Find(table, [c], 0) && LookupStep(table, [b], c).1 == "";
    UnitsStep(table, [b], c, []);
    UnitsStep(table, [], c, []);
    assert [c] + [] == [c];
  }

  // ---- PARIS ------------------------------------------------------------------

  const PARIS: seq<Byte> := ['P' as int, 'A' as int, 'R' as int, 'I' as int, 'S' as int, ' ' as int]

  function Words(n: nat): seq<Byte> { if n == 0 then [] else PARIS + Words(n - 1) }

  lemma UpperLetter(i: nat)
    requires i < 26
    ensures UPPER[i].chr == ['A' as int + i]
  {
  }

  lemma UpperEntry(prosigns: seq<Byte>, i: nat)
    requires |prosigns| == PROSIGNS && i < 26 && 'A' as int + i !in prosigns
    ensures FirstAt(Table(prosigns), PROSIGNS + i, ['A' as int + i], UPPER[i].rpr)
  {
    var table, at := Table(prosigns), PROSIGNS + i;
    TableIsWellFormed(prosigns);
    UpperLetter(i);
    assert FIXED[i] == UPPER[i] && table[at] == UPPER[i];
    forall k | 0 <= k < at ensures table[k].chr != ['A' as int + i] {
      if k >= PROSIGNS {
        UpperLetter(k - PROSIGNS);
        assert table[k] == FIXED[k - PROSIGNS] == UPPER[k - PROSIGNS];
      } else {
        assert table[k].chr == [prosigns[k]];
      }
    }
  }

  /** The entry at `at` is the first for `chr`. */
  predicate FirstAt(table: seq<Entry>, at: nat, chr: seq<Byte>, rpr: string) {
    && at < |table| - 1 && table[at] == Entry(chr, rpr)
    && forall k :: 0 <= k < at ==> table[k].chr != chr
  }

  lemma FirstIsFound(table: seq<Entry>, at: nat, c: Byte, rpr: string)
    requires WellFormed(table) && FirstAt(table, at, [c], rpr) && c < 0x80
    ensures LookupStep(table, [], c) == ([], rpr)
  {
  }

  lemma ParisLengths()
    ensures LengthOf(".--.") == 14 && LengthOf(".-") == 8 && LengthOf(".-.") == 10
         && LengthOf("..") == 6 && LengthOf("...") == 8
    ensures Balance(".--.") == -1 && Balance(".-") == 0 && Balance(".-.") == 0
         && Balance("..") == 1 && Balance("...") == 1
  {
  }

  function ParisCode(c: Byte): string {
    if c == 'P' as int then ".--." else if c == 'A' as int then ".-"
    else if c == 'R' as int then ".-." else if c == 'I' as int then ".." else "..."
  }

  /** The codes of PARIS are the standard ones. */
  predicate KnowsParis(table: seq<Entry>) {
    WellFormed(table)
    && forall c :: c in PARIS && c != ' ' as int ==> LookupStep(table, [], c) == ([], ParisCode(c))
  }

  lemma ParisLetters(table: seq<Entry>)
    requires KnowsParis(table)
    ensures LookupStep(table, [], 'P' as int) == ([], ".--.") && LookupStep(table, [], 'A' as int) == ([], ".-")
    ensures LookupStep(table, [], 'R' as int) == ([], ".-.") && LookupStep(table, [], 'I' as int) == ([], "..")
    ensures LookupStep(table, [], 'S' as int) == ([], "...")
  {
    assert PARIS[0] in PARIS && PARIS[1] in PARIS && PARIS[2] in PARIS && PARIS[3] in PARIS && PARIS[4] in PARIS;
  }

  /** They are, as long as no prosign has been put on one of the letters. */
  lemma ParisIsKnown(prosigns: seq<Byte>)
    requires |prosigns| == PROSIGNS
    requires forall c :: c in PARIS ==> c !in prosigns
    ensures KnowsParis(Table(prosigns))
  {
    assert PARIS[0] in PARIS && PARIS[1] in PARIS && PARIS[2] in PARIS && PARIS[3] in PARIS && PARIS[4] in PARIS;
    TableIsWellFormed(prosigns);
    UpperEntry(prosigns, 15);
    UpperEntry(prosigns, 0);
    UpperEntry(prosigns, 17);
    UpperEntry(prosigns, 8);
    UpperEntry(prosigns, 18);
    ParisCodes();
    FoundParis(Table(prosigns), PROSIGNS);
  }

  lemma ParisCodes()
    ensures UPPER[15].rpr == ".--." && UPPER[0].rpr == ".-" && UPPER[17].rpr == ".-."
         && UPPER[8].rpr == ".." && UPPER[18].rpr == "..."
  {
  }

  lemma FoundParis(table: seq<Entry>, p: nat)
    requires WellFormed(table)
    requires FirstAt(table, p + 15, ['P' as int], ".--.") && FirstAt(table, p, ['A' as int], ".-")
    requires FirstAt(table, p + 17, ['R' as int], ".-.") && FirstAt(table, p + 8, ['I' as int], "..")
    requires FirstAt(table, p + 18, ['S' as int], "...")
    ensures KnowsParis(table)
  {
    forall c | c in PARIS && c != ' ' as int ensures LookupStep(table, [], c) == ([], ParisCode(c)) {
      InParis(c);
      if c == 'P' as int { FirstIsFound(table, p + 15, c, ".--."); }
      else if c == 'A' as int { FirstIsFound(table, p, c, ".-"); }
      else if c == 'R' as int { FirstIsFound(table, p + 17, c, ".-."); }
      else if c == 'I' as int { FirstIsFound(table, p + 8, c, ".."); }
      else { FirstIsFound(table, p + 18, c, "..."); }
    }
  }

  lemma InParis(c: Byte)
    requires c in PARIS && c != ' ' as int
    ensures c == 'P' as int || c == 'A' as int || c == 'R' as int || c == 'I' as int || c == 'S' as int
  {
  }

  lemma PeelLetter(table: seq<Entry>, c: Byte, rest: seq<Byte>, code: string)
    requires WellFormed(table) && c != ' ' as int && LookupStep(table, [], c) == ([], code)
    ensures TextUnits(table, [], [c] + rest) == LengthOf(code) + TextUnits(table, [], rest)
    ensures TextBalance(table, [], [c] + rest) == Balance(code) + TextBalance(table, [], rest)
  {
  }

  lemma ParisUnits(table: seq<Entry>, rest: seq<Byte>)
    requires KnowsParis(table)
    ensures TextUnits(table, [], PARIS + rest) == 50 + TextUnits(table, [], rest)
    ensures TextBalance(table, [], PARIS + rest) == 1 + TextBalance(table, [], rest)
  {
    ParisLengths();
    ParisLetters(table);
    ParisTail(table, rest);
    var tail := ['R' as int] + (['I' as int] + (['S' as int] + ([' ' as int] + rest)));
    PeelLetter(table, 'A' as int, tail, ".-");
    PeelLetter(table, 'P' as int, ['A' as int] + tail, ".--.");
    ParisSplit(rest);
  }

  lemma ParisSplit(rest: seq<Byte>)
    ensures PARIS + rest == ['P' as int] + (['A' as int] + (['R' as int] + (['I' as int]
                            + (['S' as int] + ([' ' as int] + rest)))))
  {
  }

  lemma ParisTail(table: seq<Entry>, rest: seq<Byte>)
    requires KnowsParis(table)
    ensures var tail := ['R' as int] + (['I' as int] + (['S' as int] + ([' ' as int] + rest)));
      && TextUnits(table, [], tail) == 28 + TextUnits(table, [], rest)
      && TextBalance(table, [], tail) == 2 + TextBalance(table, [], rest)
  {
    ParisLengths();
    ParisLetters(table);
    var s := [' ' as int] + rest;
    assert s[1..] == rest;
    PeelLetter(table, 'S' as int, s, "...");
    PeelLetter(table, 'I' as int, ['S' as int] + s, "..");
    PeelLetter(table, 'R' as int, ['I' as int] + (['S' as int] + s), ".-.");
  }

  lemma {:induction false} WordUnits(table: seq<Entry>, n: nat)
    requires KnowsParis(table)
    ensures TextUnits(table, [], Words(n)) == 50 * n
    ensures TextBalance(table, [], Words(n)) == n
  {
    if n > 0 {
      var rest := Words(n - 1);
      WordUnits(table, n - 1);
      NextWord(table, Words(n), rest);
    }
  }

  lemma NextWord(table: seq<Entry>, words: seq<Byte>, rest: seq<Byte>)
    requires KnowsParis(table) && words == PARIS + rest
    ensures TextUnits(table, [], words) == 50 + TextUnits(table, [], rest)
    ensures TextBalance(table, [], words) == 1 + TextBalance(table, [], rest)
  {
    ParisUnits(table, rest);
  }

  lemma {:induction false} NoNewline(n: nat)
    ensures 0x0a !in Words(n)
  {
    if n > 0 { NoNewline(n - 1); }
  }

  /** The time asked for so many words. */
  function WordsTime(table: seq<Entry>, n: nat, t: Timing): real
    requires WellFormed(table)
  {
    Requested(TextActs(table, [], Words(n), t))
  }

  lemma {:induction false} WordsBlanked(n: nat)
    ensures Blanked(Words(n)) == Words(n)
  {
    NoNewline(n);
    NothingBlanked(Words(n));
  }

  lemma {:induction false} NothingBlanked(text: seq<Byte>)
    requires 0x0a !in text
    ensures Blanked(text) == text
  {
    if text != [] { NothingBlanked(text[1..]); }
  }

  lemma MinuteTime(table: seq<Entry>, n: nat, t: Timing)
    requires KnowsParis(table)
    ensures WordsTime(table, n, t) == n as real * (50.0 * t.unit + t.corr)
  {
    WordUnits(table, n);
    WordsBlanked(n);
    TextTime(table, [], Words(n), t);
    MinuteAlgebra(t, n);
  }

  /** The time asked for `wpm` words at the configured speed. */
  function MinuteOf(table: seq<Entry>, s: Settings): real
    requires WellFormed(table) && s.wpm > 0
  {
    WordsTime(table, s.wpm, TimingOf(s))
  }

  lemma MinuteAlgebra(t: Timing, wpm: int)
    ensures TimeOf(t, 50 * wpm, wpm) == wpm as real * (50.0 * t.unit + t.corr)
  {
  }

  /** With no compensation `wpm` words take exactly a minute and one correction a word. */
  lemma ExactMinute(table: seq<Entry>, wpm: int, keycorr: real)
    requires KnowsParis(table) && wpm > 0
    ensures var s := Settings(wpm, 0.0, keycorr);
      MinuteOf(table, s) == 60.0 + wpm as real * TimingOf(s).corr && (keycorr == 0.0 ==> TimingOf(s).corr == 0.0)
  {
    var t := TimingOf(Settings(wpm, 0.0, keycorr));
    MinuteTime(table, wpm, t);
    UnitIs(wpm, 0.0, keycorr);
    FullMinute(wpm as real, t);
  }

  lemma FullMinute(w: real, t: Timing)
    requires w > 0.0 && t.unit == 1.2 / w
    ensures w * (50.0 * t.unit + t.corr) == 60.0 + w * t.corr
  {
    MinuteOfDots(w, t.unit);
    MinuteParts(w, t);
  }

  /** A unit shortened by the compensation, unless that is more than all of it. */
  function UnitOf(dot: real, comp: real): real { if comp < dot then dot - comp else dot }

  lemma UnitIs(wpm: int, comp: real, keycorr: real)
    requires wpm > 0
    ensures var t := TimingOf(Settings(wpm, comp, keycorr));
      t.unit == UnitOf(1.2 / wpm as real, comp * 0.001) && (keycorr == 0.0 ==> t.corr == 0.0)
      && (comp == 0.0 ==> t.unit == 1.2 / wpm as real)
  {
    DotIsPositive(wpm as real);
  }

  lemma MinuteParts(w: real, t: Timing)
    ensures w * (50.0 * t.unit + t.corr) == w * (50.0 * t.unit) + w * t.corr
  {
  }

  lemma MinuteOfDots(w: real, dot: real)
    requires w > 0.0 && dot == 1.2 / w
    ensures w * dot == 1.2 && w * (50.0 * dot) == 60.0
  {
  }

  /** do_calibration: the compensation computed from a run that took `elapsed` seconds. */
  function Calibrated(wpm: int, elapsed: real): real
    requires wpm > 0
  {
    1000.0 * (elapsed - 60.0) / (50.0 * wpm as real)
  }

  /** A calibration run that took `elapsed` seconds instead of 60 makes the next run ask
      for as much less as it took more, besides the correction for every word, exactly when
      it took less than two minutes. */
  lemma CalibrationCorrects(table: seq<Entry>, wpm: int, keycorr: real, elapsed: real)
    requires KnowsParis(table) && wpm > 0
    ensures var s := Settings(wpm, Calibrated(wpm, elapsed), keycorr);
      MinuteOf(table, s) == 60.0 - (elapsed - 60.0) + wpm as real * TimingOf(s).corr <==> elapsed < 120.0
  {
    var t := TimingOf(Settings(wpm, Calibrated(wpm, elapsed), keycorr));
    MinuteTime(table, wpm, t);
    CalibratedTiming(wpm, keycorr, elapsed, t);
  }

  lemma CalibratedTiming(wpm: int, keycorr: real, elapsed: real, t: Timing)
    requires wpm > 0 && t == TimingOf(Settings(wpm, Calibrated(wpm, elapsed), keycorr))
    ensures wpm as real * (50.0 * t.unit + t.corr) == 60.0 - (elapsed - 60.0) + wpm as real * t.corr
        <==> elapsed < 120.0
  {
    UnitIs(wpm, Calibrated(wpm, elapsed), keycorr);
    CalibratedMinute(wpm, elapsed, t);
  }

  lemma CalibratedMinute(wpm: int, elapsed: real, t: Timing)
    requires wpm > 0 && t.unit == UnitOf(1.2 / wpm as real, Calibrated(wpm, elapsed) * 0.001)
    ensures wpm as real * (50.0 * t.unit + t.corr) == 60.0 - (elapsed - 60.0) + wpm as real * t.corr
        <==> elapsed < 120.0
  {
    var w := wpm as real;
    CompensationTime(w, elapsed);
    CompensatedMinute(w, 1.2 / w, Calibrated(wpm, elapsed) * 0.001, elapsed - 60.0);
    MinuteParts(w, t);
  }

  lemma CompensatedMinute(w: real, dot: real, comp: real, late: real)
    requires w > 0.0 && dot == 1.2 / w && 50.0 * w * comp == late
    ensures w * (50.0 * UnitOf(dot, comp)) == 60.0 - late <==> late < 60.0
  {
    MinuteOfDots(w, dot);
    Distribute(w, dot, comp);
    assert 50.0 * w * dot == 60.0;
    if comp < dot {
      Monotone(50.0 * w, comp, dot);
    } else {
      Monotone(50.0 * w, dot, comp);
      assert late >= 60.0;
    }
  }

  lemma CompensationTime(w: real, elapsed: real)
    requires w > 0.0
    ensures 50.0 * w * (1000.0 * (elapsed - 60.0) / (50.0 * w) * 0.001) == elapsed - 60.0
  {
  }

  lemma Distribute(w: real, dot: real, comp: real)
    ensures w * (50.0 * (dot - comp)) == 50.0 * w * dot - 50.0 * w * comp
    ensures w * (50.0 * dot) == 50.0 * w * dot
  {
  }

  lemma Monotone(k: real, a: real, b: real)
    requires k > 0.0 && a <= b
    ensures k * a <= k * b && (a < b ==> k * a < k * b)
  {
  }

  // ---- Stopping in the middle ------------------------------------------------------

  /** The first poll from `n` on that sees the stop, or the end of the code. */
  function StopsAt(code: string, n: nat, ended: nat -> bool): (m: nat)
    requires n <= |code|
    ensures n <= m <= |code|
    ensures m < |code| ==> ended(m)
    ensures forall k :: n <= k < m ==> !ended(k)
    decreases |code| - n
  {
    if n == |code| || ended(n) then n else StopsAt(code, n + 1, ended)
  }

  function Keys(acts: seq<Act>): seq<bool> {
    if acts == [] then [] else (if acts[0].Key? then [acts[0].down] else []) + Keys(acts[1..])
  }

  lemma {:induction false} KeysAppend(a: seq<Act>, b: seq<Act>)
    ensures Keys(a + b) == Keys(a) + Keys(b)
  {
    Front(a, b);
    if a != [] {
      KeysAppend(a[1..], b);
      Assoc(if a[0].Key? then [a[0].down] else [], Keys(a[1..]), Keys(b));
    }
  }

  lemma ElementKeys(code: string, n: nat, t: Timing)
    requires n < |code|
    ensures Keys(ElementActs(code, n, t)) == [true, false]
  {
    var acts := ElementActs(code, n, t);
    assert acts[1..][1..] == acts[2..] && acts[2..][1..] == acts[3..] && acts[3..][1..] == [];
    assert Keys(acts[3..]) == [] + Keys([]) == [];
    assert Keys(acts[2..]) == [false] + Keys(acts[3..]) == [false];
    assert Keys(acts[1..]) == [] + Keys(acts[2..]) == [false];
  }

  /** Whatever the polls see, the key moves down and up by turns and ends up. */
  lemma {:induction false} KeyAlternates(code: string, n: nat, t: Timing, ended: nat -> bool)
    requires n <= |code|
    ensures var keys := Keys(CodeActs(code, n, t, ended));
      |keys| % 2 == 0 && forall i :: 0 <= i < |keys| ==> keys[i] == (i % 2 == 0)
    ensures !Level(CodeActs(code, n, t, ended), false)
    decreases |code| - n
  {
    if n < |code| && !ended(n) {
      var head, tail := ElementActs(code, n, t), CodeActs(code, n + 1, t, ended);
      KeyAlternates(code, n + 1, t, ended);
      ElementKeys(code, n, t);
      KeysAppend(head, tail);
      ElementSegs(code, n, t);
      LevelAppend(head, tail, false);
    }
  }

  /** A stop seen at any poll leaves whole elements: what was done is the part of the
      whole character up to that element, each held for its full length. */
  lemma {:induction false} StopsCleanly(code: string, n: nat, t: Timing, ended: nat -> bool)
    requires n <= |code|
    ensures var whole := CodeActs(code, n, t, NEVER);
      && |whole| == 4 * (|code| - n)
      && CodeActs(code, n, t, ended) == whole[..4 * (StopsAt(code, n, ended) - n)]
    decreases |code| - n
  {
    if n < |code| { StopsCleanly(code, n + 1, t, ended); }
  }

  // ---- The keyer -------------------------------------------------------------------

  class Keyer {
    const morse: Cmorse
    var settings: Settings
    var inverted: bool       // cwioINVERTED
    var trace: seq<Act>      // moves of the key-line pin and sleeps

    constructor (prosigns: seq<Byte>, settings: Settings, inverted: bool)
      requires |prosigns| == PROSIGNS
      ensures this.settings == settings && this.inverted == inverted && trace == []
      ensures fresh(morse) && morse.table == Table(prosigns) && WellFormed(morse.table) && morse.utf8 == []
    {
      this.settings, this.inverted, trace := settings, inverted, [];
      morse := new Cmorse(prosigns);
    }

    method Sleep(span: real)
      modifies this`trace
      ensures trace == old(trace) + [Wait(span)]
    {
      trace := trace + [Wait(span)];
    }

    /** cwio_key: the pin takes the state, reversed when configured so. */
    method CwioKey(state: bool)
      modifies this`trace
      ensures trace == old(trace) + [Key(state != inverted)]
    {
      trace := trace + [Key(if inverted then !state else state)];
    }

    /** send_cwkey.  `ended(n)` is whether cwio_process reads END at the n-th poll.
        The caller and `CwioKey` both reverse, so the pin moves alike for either
        setting of `inverted`. */
    method SendCwkey(c: Byte, portOpen: bool, ended: nat -> bool) returns (requested: real)
      requires WellFormed(morse.table) && settings.wpm > 0
      modifies this`trace, morse`utf8
      ensures !portOpen ==> trace == old(trace) && morse.utf8 == old(morse.utf8) && requested == 0.0
      ensures portOpen ==>
        var (buf, acts) := CharActs(morse.table, old(morse.utf8), c, TimingOf(settings), ended);
        morse.utf8 == buf && trace == old(trace) + acts && requested == Requested(acts)
    {
      requested := 0.0;
      if !portOpen { return; }
      var t := TimingOf(settings);
      var twd := 4.0 * t.unit;
      if c == ' ' as int || c == 0x0a {
        requested := requested + twd;
        Sleep(twd);
        assert [Wait(twd)][1..] == [];
        return;
      }
      var code := morse.TxLookup(c);
      ghost var all := CodeActs(code, 0, t, ended);
      assert old(trace) + all == trace + all;
      var n := 0;
      while n < |code|
        invariant 0 <= n <= |code|
        invariant morse.utf8 == LookupStep(morse.table, old(morse.utf8), c).0
        invariant trace + CodeActs(code, n, t, ended) == old(trace) + all
        invariant requested + Requested(CodeActs(code, n, t, ended)) == Requested(all)
      {
        if ended(n) {
          assert trace + [] == trace;
          return;
        }
        ghost var rest := CodeActs(code, n + 1, t, ended);
        RequestedAppend(ElementActs(code, n, t), rest);
        Assoc(trace, ElementActs(code, n, t), rest);
        var span := SendElement(code, n, t);
        requested := requested + span;
        n := n + 1;
      }
      assert trace + [] == trace;
    }

    /** The body of the loop over the elements. */
    method SendElement(code: string, n: nat, t: Timing) returns (requested: real)
      requires n < |code|
      modifies this`trace
      ensures trace == old(trace) + ElementActs(code, n, t)
      ensures requested == Requested(ElementActs(code, n, t))
    {
      var tc, tch, corr := t.unit, 3.0 * t.unit, t.corr;
      ElementTime(code, n, t);
      CwioKey(!inverted);
      if code[n] == '.' {
        requested := tc + corr;
        Sleep(tc + corr);
      } else {
        requested := tch;
        Sleep(tch);
      }
      CwioKey(inverted);
      if n == |code| - 1 {
        requested := requested + tch;
        Sleep(tch);
      } else {
        requested := requested + (tc - corr);
        Sleep(tc - corr);
      }
    }

    /** do_calibration, given the time the run of PARIS took. */
    method DoCalibration(portOpen: bool, elapsed: real) returns (requested: real)
      requires WellFormed(morse.table) && settings.wpm > 0
      modifies this`trace, this`settings, morse`utf8
      ensures settings == old(settings).(comp := Calibrated(old(settings).wpm, elapsed))
      ensures !portOpen ==> trace == old(trace) && morse.utf8 == old(morse.utf8) && requested == 0.0
      ensures portOpen ==>
        var acts := TextActs(morse.table, old(morse.utf8), Words(settings.wpm), TimingOf(old(settings).(comp := 0.0)));
        trace == old(trace) + acts && requested == Requested(acts)
    {
      settings := settings.(comp := 0.0);
      var teststr := [];
      for i := 0 to settings.wpm
        invariant teststr == Words(i)
        invariant settings == old(settings).(comp := 0.0) && trace == old(trace)
        invariant morse.table == old(morse.table) && morse.utf8 == old(morse.utf8)
      {
        WordsAppend(i);
        teststr := teststr + PARIS;
      }
      requested := SendAll(teststr, portOpen);
      settings := settings.(comp := 1000.0 * (elapsed - 60.0) / (50.0 * settings.wpm as real));
    }

    /** Keys a text that nobody stops. */
    method SendAll(text: seq<Byte>, portOpen: bool) returns (requested: real)
      requires WellFormed(morse.table) && settings.wpm > 0
      modifies this`trace, morse`utf8
      ensures !portOpen ==> trace == old(trace) && morse.utf8 == old(morse.utf8) && requested == 0.0
      ensures portOpen ==>
        var acts := TextActs(morse.table, old(morse.utf8), text, TimingOf(settings));
        trace == old(trace) + acts && requested == Requested(acts)
    {
      ghost var t := TimingOf(settings);
      ghost var all := TextActs(morse.table, morse.utf8, text, t);
      requested := 0.0;
      assert text[0..] == text && trace + all == old(trace) + all;
      for n := 0 to |text|
        invariant !portOpen ==> trace == old(trace) && morse.utf8 == old(morse.utf8) && requested == 0.0
        invariant portOpen ==> trace + TextActs(morse.table, morse.utf8, text[n..], t) == old(trace) + all
        invariant portOpen ==>
          requested + Requested(TextActs(morse.table, morse.utf8, text[n..], t)) == Requested(all)
      {
        assert text[n..][1..] == text[n + 1..];
        ghost var (buf1, acts) := CharActs(morse.table, morse.utf8, text[n], t, NEVER);
        ghost var rest := TextActs(morse.table, buf1, text[n + 1..], t);
        RequestedAppend(acts, rest);
        Assoc(trace, acts, rest);
        var r := SendCwkey(text[n], portOpen, NEVER);
        requested := requested + r;
      }
      assert text[|text|..] == [] && trace + [] == trace;
    }
  }

  lemma {:induction false} WordsAppend(n: nat)
    ensures Words(n) + PARIS == Words(n + 1)
  {
    if n > 0 {
      WordsAppend(n - 1);
      assert PARIS + Words(n - 1) + PARIS == PARIS + (Words(n - 1) + PARIS);
    } else {
      assert [] + PARIS == PARIS + [];
    }
  }
}
