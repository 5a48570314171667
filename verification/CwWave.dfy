/** The key-down and key-up times of `send_cwkey` in `src/cwio/cwio.cxx`, and a
    decoder that reads a measured key line back. */
module CwWave {
  import opened Common
  import opened Morse

  /** What the keyer does: moves the key, or lets time pass (in seconds). */
  datatype Act = Key(down: bool) | Wait(span: real)

  /** The configured speed and corrections: cwioWPM, cwio_comp and cwio_keycorr,
      the last two in milliseconds. */
  datatype Settings = Settings(wpm: int, comp: real, keycorr: real)

  /** The dot length and the clamped transceiver correction. */
  datatype Timing = Timing(unit: real, corr: real)

  function TimingOf(s: Settings): (t: Timing)
    requires s.wpm > 0
    ensures t.unit > 0.0 && -t.unit / 2.0 <= t.corr <= t.unit / 2.0
  {
    var dot := 1.2 / s.wpm as real;
    DotIsPositive(s.wpm as real);
    var comp := s.comp * 0.001;
    var unit := if comp < dot then dot - comp else dot;
    var corr := s.keycorr * 0.001;
    Timing(unit, if corr < -unit / 2.0 then -unit / 2.0 else if corr > unit / 2.0 then unit / 2.0 else corr)
  }

  lemma DotIsPositive(wpm: real)
    requires wpm > 0.0
    ensures 1.2 / wpm > 0.0
  {
  }

  function Distance(x: real, y: real): real { if x < y then y - x else x - y }

  /** The correction is the value from minus to plus half a unit that is nearest to the
      configured one, and the configured one itself if that lies in between. */
  lemma CorrectionIsNearest(s: Settings, x: real)
    requires s.wpm > 0 && -TimingOf(s).unit / 2.0 <= x <= TimingOf(s).unit / 2.0
    ensures Distance(TimingOf(s).corr, s.keycorr / 1000.0) <= Distance(x, s.keycorr / 1000.0)
    ensures x == s.keycorr / 1000.0 ==> TimingOf(s).corr == x
  {
  }

  /** A unit is a dot at the configured speed, 1.2 seconds by the words a minute, less the
      compensation unless that would leave nothing. */
  lemma UnitIsDot(s: Settings, w: real, late: real)
    requires s.wpm > 0 && w == s.wpm as real && late == s.comp / 1000.0 * w
    ensures late < 1.2 ==> TimingOf(s).unit * w == 1.2 - late
    ensures late >= 1.2 ==> TimingOf(s).unit * w == 1.2
  {
    var dot, comp := 1.2 / w, s.comp / 1000.0;
    DotIsPositive(w);
    assert dot * w == 1.2 && s.comp * 0.001 == comp;
    Compensated(w, dot, comp);
    if comp < dot {
      assert TimingOf(s).unit == dot - comp && late == comp * w < 1.2;
    } else {
      assert TimingOf(s).unit == dot && late == comp * w >= 1.2;
    }
  }

  lemma Compensated(w: real, dot: real, comp: real)
    requires w > 0.0
    ensures (dot - comp) * w == dot * w - comp * w
    ensures comp < dot ==> comp * w < dot * w
    ensures comp >= dot ==> comp * w >= dot * w
  {
    assert (dot - comp) * w == dot * w - comp * w;
    if comp < dot { assert (dot - comp) * w > 0.0; } else { assert (comp - dot) * w >= 0.0; }
  }

  predicate Valid(t: Timing) { t.unit > 0.0 && -t.unit / 2.0 <= t.corr <= t.unit / 2.0 }

  // ---- What is keyed -------------------------------------------------------

  function ElementSpan(mark: char, t: Timing): real {
    if mark == '.' then t.unit + t.corr else 3.0 * t.unit
  }

  /** The acts of the elements from `n` on, until `ended` says stop before one. */
  function CodeActs(code: string, n: nat, t: Timing, ended: nat -> bool): seq<Act>
    requires n <= |code|
    decreases |code| - n
  {
    if n == |code| || ended(n) then []
    else ElementActs(code, n, t) + CodeActs(code, n + 1, t, ended)
  }

  /** Key down for the element, then key up for the gap behind it. */
  function ElementActs(code: string, n: nat, t: Timing): seq<Act>
    requires n < |code|
  {
    [Key(true), Wait(ElementSpan(code[n], t)), Key(false),
     Wait(if n == |code| - 1 then 3.0 * t.unit else t.unit - t.corr)]
  }

  /** In seconds: a correction that is in range lengthens every dot and shortens every gap
      inside a character, and nothing else. */
  lemma CorrectionIsKeyed(code: string, n: nat, s: Settings)
    requires s.wpm > 0 && n < |code|
    requires -TimingOf(s).unit / 2.0 <= s.keycorr / 1000.0 <= TimingOf(s).unit / 2.0
    ensures var (unit, corr) := (TimingOf(s).unit, s.keycorr / 1000.0);
      ElementActs(code, n, TimingOf(s))
      == [Key(true), Wait(if code[n] == '.' then unit + corr else 3.0 * unit), Key(false),
          Wait(if n + 1 < |code| then unit - corr else 3.0 * unit)]
  {
    CorrectionIsNearest(s, s.keycorr / 1000.0);
  }

  const NEVER: nat -> bool := _ => false

  predicate IsSpace(c: Byte) { c == ' ' as int || c == 0x0a }

  /** One call of `send_cwkey`: the lookup buffer it leaves and what it does. */
  function CharActs(table: seq<Entry>, buf: seq<Byte>, c: Byte, t: Timing, ended: nat -> bool): (seq<Byte>, seq<Act>)
    requires WellFormed(table)
  {
    if IsSpace(c) then (buf, [Wait(4.0 * t.unit)])
    else
      var (buf1, code) := LookupStep(table, buf, c);
      (buf1, CodeActs(code, 0, t, ended))
  }

  function TextActs(table: seq<Entry>, buf: seq<Byte>, text: seq<Byte>, t: Timing): seq<Act>
    requires WellFormed(table)
    decreases |text|
  {
    if text == [] then []
    else
      var (buf1, acts) := CharActs(table, buf, text[0], t, NEVER);
      acts + TextActs(table, buf1, text[1..], t)
  }

  // ---- What a listener should hear -----------------------------------------

  datatype Element = Dit | Dah

  datatype Token = Letter(code: seq<Element>) | Space

  function Mark(c: char): Element { if c == '.' then Dit else Dah }

  function Elements(code: string): (e: seq<Element>)
    ensures |e| == |code|
  {
    if code == "" then [] else [Mark(code[0])] + Elements(code[1..])
  }

  /** The results of `tx_lookup` and the spaces, in order. */
  function Tokens(table: seq<Entry>, buf: seq<Byte>, text: seq<Byte>): seq<Token>
    requires WellFormed(table)
    decreases |text|
  {
    if text == [] then []
    else if IsSpace(text[0]) then [Space] + Tokens(table, buf, text[1..])
    else
      var (buf1, code) := LookupStep(table, buf, text[0]);
      (if code == "" then [] else [Letter(Elements(code))]) + Tokens(table, buf1, text[1..])
  }

  // ---- The key line ----------------------------------------------------------

  function Segs(acts: seq<Act>, down: bool): seq<Seg> {
    if acts == [] then []
    else match acts[0]
      case Key(d) => Segs(acts[1..], d)
      case Wait(span) => [Seg(down, span)] + Segs(acts[1..], down)
  }

  /** Puts one segment in front of a line, joining it to a first one of the same level. */
  function Join(s: Seg, line: seq<Seg>): seq<Seg> {
    if line != [] && line[0].level == s.level then [Seg(s.level, s.span + line[0].span)] + line[1..]
    else [s] + line
  }

  /** What can be seen on the line: neighbours at the same level are one interval. */
  function Merge(segs: seq<Seg>): seq<Seg> {
    if segs == [] then [] else Join(segs[0], Merge(segs[1..]))
  }

  /** A measurement of the line: the same intervals, each off by less than half a unit. */
  predicate Measures(measured: seq<Seg>, line: seq<Seg>, unit: real) {
    if line == [] then measured == []
    else measured != [] && Near(measured[0], line[0], unit) && Measures(measured[1..], line[1..], unit)
  }

  predicate Near(a: Seg, b: Seg, unit: real) {
    a.level == b.level && -unit / 2.0 < a.span - b.span < unit / 2.0
  }

  // ---- The decoder ------------------------------------------------------------

  /** Whole spaces of four units in a gap, to the nearest. */
  function Spaces(gap: real, unit: real): seq<Token>
    requires unit > 0.0
    decreases if gap < 2.0 * unit then 0 else 1 + (gap / unit).Floor
  {
    if gap < 2.0 * unit then []
    else
      assert gap / unit >= 2.0 && (gap - 4.0 * unit) / unit == gap / unit - 4.0 by { Quotient(gap, unit); }
      [Space] + Spaces(gap - 4.0 * unit, unit)
  }

  lemma Quotient(gap: real, unit: real)
    requires unit > 0.0
    ensures (gap - 4.0 * unit) / unit == gap / unit - 4.0
    ensures gap >= 2.0 * unit ==> gap / unit >= 2.0
  {
    var q := gap / unit;
    assert q * unit == gap;
    DivisionIs(gap - 4.0 * unit, unit, q - 4.0);
  }

  lemma DivisionIs(a: real, b: real, q: real)
    requires b > 0.0 && a == q * b
    ensures a / b == q
  {
  }

  /** Reads a line: a key-down shorter than two units is a dot, a gap shorter than
      two units lies inside a character, and a longer one ends it and holds a space
      for every four units beyond three.  `heard` is the unfinished character. */
  function Decode(line: seq<Seg>, heard: seq<Element>, unit: real): seq<Token>
    requires unit > 0.0
    decreases |line|
  {
    if line == [] then if heard == [] then [] else [Letter(heard)]
    else if line[0].level then
      Decode(line[1..], heard + [if line[0].span < 2.0 * unit then Dit else Dah], unit)
    else if heard == [] then Spaces(line[0].span, unit) + Decode(line[1..], [], unit)
    else if line[0].span < 2.0 * unit then Decode(line[1..], heard, unit)
    else [Letter(heard)] + Spaces(line[0].span - 3.0 * unit, unit) + Decode(line[1..], [], unit)
  }

  // ---- The line of a text -------------------------------------------------------

  function Level(acts: seq<Act>, down: bool): bool {
    if acts == [] then down else Level(acts[1..], if acts[0].Key? then acts[0].down else down)
  }

  lemma {:induction false} SegsAppend(a: seq<Act>, b: seq<Act>, down: bool)
    ensures Segs(a + b, down) == Segs(a, down) + Segs(b, Level(a, down))
  {
    Front(a, b);
    if a != [] {
      SegsAppend(a[1..], b, if a[0].Key? then a[0].down else down);
      if a[0].Wait? { Assoc([Seg(down, a[0].span)], Segs(a[1..], down), Segs(b, Level(a, down))); }
    }
  }

  /** The elements from `n` on, in front of a line. */
  function CodeLine(code: string, n: nat, t: Timing, line: seq<Seg>): seq<Seg>
    requires n <= |code|
    decreases |code| - n
  {
    if n == |code| then line
    else
      var gap := if n == |code| - 1 then 3.0 * t.unit else t.unit - t.corr;
      Join(Seg(true, ElementSpan(code[n], t)), Join(Seg(false, gap), CodeLine(code, n + 1, t, line)))
  }

  lemma ElementSegs(code: string, n: nat, t: Timing)
    requires n < |code|
    ensures Level(ElementActs(code, n, t), false) == false
    ensures Segs(ElementActs(code, n, t), false)
         == [Seg(true, ElementSpan(code[n], t)),
             Seg(false, if n == |code| - 1 then 3.0 * t.unit else t.unit - t.corr)]
  {
    var acts := ElementActs(code, n, t);
    assert acts[1..][1..] == acts[2..] && acts[2..][1..] == acts[3..] && acts[3..][1..] == [];
    assert Level(acts[3..], false) == false && Level(acts[2..], true) == false && Level(acts[1..], true) == false;
    assert Segs(acts[3..], false) == [Seg(false, acts[3].span)] + [];
    assert Segs(acts[2..], true) == Segs(acts[3..], false);
    assert Segs(acts[1..], true) == [Seg(true, acts[1].span)] + Segs(acts[2..], true);
  }

  lemma MergeTwo(a: Seg, b: Seg, segs: seq<Seg>)
    ensures Merge([a, b] + segs) == Join(a, Join(b, Merge(segs)))
  {
    assert ([a, b] + segs)[1..] == [b] + segs && ([b] + segs)[1..] == segs;
  }

  lemma {:induction false} LevelAppend(a: seq<Act>, b: seq<Act>, down: bool)
    ensures Level(a + b, down) == Level(b, Level(a, down))
  {
    Front(a, b);
    if a != [] {
      LevelAppend(a[1..], b, if a[0].Key? then a[0].down else down);
    }
  }

  /** The intervals of the elements from `n` on. */
  function CodeIntervals(code: string, n: nat, t: Timing): seq<Seg>
    requires n <= |code|
    decreases |code| - n
  {
    if n == |code| then []
    else [Seg(true, ElementSpan(code[n], t)),
          Seg(false, if n == |code| - 1 then 3.0 * t.unit else t.unit - t.corr)] + CodeIntervals(code, n + 1, t)
  }

  lemma {:induction false} IntervalsOfActs(code: string, n: nat, t: Timing)
    requires n <= |code|
    ensures Segs(CodeActs(code, n, t, NEVER), false) == CodeIntervals(code, n, t)
    ensures !Level(CodeActs(code, n, t, NEVER), false)
    decreases |code| - n
  {
    if n < |code| {
      var head, tail := ElementActs(code, n, t), CodeActs(code, n + 1, t, NEVER);
      ElementSegs(code, n, t);
      SegsAppend(head, tail, false);
      LevelAppend(head, tail, false);
      IntervalsOfActs(code, n + 1, t);
    }
  }

  lemma {:induction false} IntervalsMerge(code: string, n: nat, t: Timing, segs: seq<Seg>)
    requires n <= |code|
    ensures Merge(CodeIntervals(code, n, t) + segs) == CodeLine(code, n, t, Merge(segs))
    decreases |code| - n
  {
    var all := CodeIntervals(code, n, t);
    if n == |code| {
      assert all + segs == segs;
    } else {
      var tail := CodeIntervals(code, n + 1, t);
      Assoc([all[0], all[1]], tail, segs);
      MergeTwo(all[0], all[1], tail + segs);
      IntervalsMerge(code, n + 1, t, segs);
    }
  }

  lemma CodeSegs(code: string, t: Timing, rest: seq<Act>)
    ensures Merge(Segs(CodeActs(code, 0, t, NEVER) + rest, false)) == CodeLine(code, 0, t, Merge(Segs(rest, false)))
  {
    SegsAppend(CodeActs(code, 0, t, NEVER), rest, false);
    IntervalsOfActs(code, 0, t);
    IntervalsMerge(code, 0, t, Segs(rest, false));
  }

  predicate UpsNonNegative(line: seq<Seg>) {
    line != [] ==> (line[0].level || line[0].span >= 0.0) && UpsNonNegative(line[1..])
  }

  lemma JoinShape(s: Seg, line: seq<Seg>)
    requires UpsNonNegative(line) && (s.level || s.span >= 0.0)
    ensures var l := Join(s, line); l != [] && l[0].level == s.level && UpsNonNegative(l)
  {
  }

  lemma {:induction false} CodeLineShape(code: string, n: nat, t: Timing, line: seq<Seg>)
    requires Valid(t) && n <= |code| && UpsNonNegative(line)
    ensures var l := CodeLine(code, n, t, line); UpsNonNegative(l) && (n < |code| ==> l != [] && l[0].level)
    decreases |code| - n
  {
    if n < |code| {
      CodeLineShape(code, n + 1, t, line);
      var next := CodeLine(code, n + 1, t, line);
      var gap := Seg(false, if n == |code| - 1 then 3.0 * t.unit else t.unit - t.corr);
      JoinShape(gap, next);
      JoinShape(Seg(true, ElementSpan(code[n], t)), Join(gap, next));
    }
  }

  // ---- Decoding -------------------------------------------------------------------

  /** A measured line with `gap` taken off its front, where the line behind the gap is `line`. */
  function Less(measured: seq<Seg>, gap: real, line: seq<Seg>): seq<Seg>
    requires measured != []
  {
    if line != [] && !line[0].level then [measured[0].(span := measured[0].span - gap)] + measured[1..]
    else measured[1..]
  }

  /** What is decoded from a line whose first interval is a gap, once so much of the gap
      is used up. */
  function Left(line: seq<Seg>, used: real, unit: real): seq<Token>
    requires unit > 0.0 && line != []
  {
    Spaces(line[0].span - used, unit) + Decode(line[1..], [], unit)
  }

  /** A gap outside a character is its spaces. */
  lemma OuterGap(line: seq<Seg>, unit: real)
    requires unit > 0.0 && line != [] && !line[0].level
    ensures Decode(line, [], unit) == Left(line, 0.0, unit)
  {
  }

  /** A long gap inside a character ends it and is the spaces beyond three units. */
  lemma EndingGap(line: seq<Seg>, heard: seq<Element>, unit: real)
    requires unit > 0.0 && line != [] && !line[0].level && heard != [] && line[0].span >= 2.0 * unit
    ensures Decode(line, heard, unit) == [Letter(heard)] + Left(line, 3.0 * unit, unit)
  {
  }

  lemma NextSpace(line: seq<Seg>, unit: real)
    requires unit > 0.0 && line != [] && line[0].span >= 2.0 * unit
    ensures Left(line, 0.0, unit) == [Space] + Left(line, 4.0 * unit, unit)
  {
  }

  /** With `gap` taken off its front, a measured line is decoded as the spaces left in
      its first interval and the rest. */
  lemma LessDecodes(measured: seq<Seg>, gap: real, line: seq<Seg>, unit: real)
    requires unit > 0.0 && gap >= 3.0 * unit && UpsNonNegative(line)
    requires Measures(measured, Join(Seg(false, gap), line), unit)
    ensures measured != [] && !measured[0].level && measured[0].span >= 2.0 * unit
    ensures Measures(Less(measured, gap, line), line, unit)
    ensures Decode(Less(measured, gap, line), [], unit) == Left(measured, gap, unit)
  {
  }

  /** A space in front of a line is decoded as a space in front of its tokens. */
  lemma SpaceFirst(measured: seq<Seg>, line: seq<Seg>, unit: real) returns (m: seq<Seg>)
    requires unit > 0.0 && UpsNonNegative(line)
    requires Measures(measured, Join(Seg(false, 4.0 * unit), line), unit)
    ensures Measures(m, line, unit)
    ensures Decode(measured, [], unit) == [Space] + Decode(m, [], unit)
  {
    m := Less(measured, 4.0 * unit, line);
    LessDecodes(measured, 4.0 * unit, line, unit);
    OuterGap(measured, unit);
    NextSpace(measured, unit);
  }

  /** The gap behind a character ends it, and what is left of the gap is decoded
      as if the line began there. */
  lemma LetterEnds(measured: seq<Seg>, heard: seq<Element>, line: seq<Seg>, unit: real) returns (m: seq<Seg>)
    requires unit > 0.0 && UpsNonNegative(line) && heard != []
    requires Measures(measured, Join(Seg(false, 3.0 * unit), line), unit)
    ensures Measures(m, line, unit)
    ensures Decode(measured, heard, unit) == [Letter(heard)] + Decode(m, [], unit)
  {
    m := Less(measured, 3.0 * unit, line);
    LessDecodes(measured, 3.0 * unit, line, unit);
    EndingGap(measured, heard, unit);
  }

  lemma ElementsTail(code: string, n: nat)
    requires n < |code|
    ensures Elements(code[n..]) == [Mark(code[n])] + Elements(code[n + 1..])
  {
  }

  /** A key-down is decoded as the element that was keyed. */
  lemma ElementDecodes(measured: seq<Seg>, c: char, t: Timing, heard: seq<Element>, line: seq<Seg>)
    requires Valid(t) && Measures(measured, [Seg(true, ElementSpan(c, t))] + line, t.unit)
    ensures Measures(measured[1..], line, t.unit)
    ensures Decode(measured, heard, t.unit) == Decode(measured[1..], heard + [Mark(c)], t.unit)
  {
  }

  lemma CodeLineStep(code: string, n: nat, t: Timing, line: seq<Seg>)
    requires Valid(t) && n < |code| && UpsNonNegative(line)
    ensures var next := CodeLine(code, n + 1, t, line);
      && UpsNonNegative(next)
      && CodeLine(code, n, t, line) == [Seg(true, ElementSpan(code[n], t))]
           + if n == |code| - 1 then Join(Seg(false, 3.0 * t.unit), line) else [Seg(false, t.unit - t.corr)] + next
  {
    CodeLineShape(code, n + 1, t, line);
  }

  /** An element and the gap behind it, inside a character. */
  lemma InnerDecodes(code: string, n: nat, t: Timing, heard: seq<Element>, measured: seq<Seg>, line: seq<Seg>)
    requires Valid(t) && n + 1 < |code| && UpsNonNegative(line)
    requires Measures(measured, CodeLine(code, n, t, line), t.unit)
    ensures |measured| >= 2 && Measures(measured[2..], CodeLine(code, n + 1, t, line), t.unit)
    ensures Decode(measured, heard, t.unit) == Decode(measured[2..], heard + [Mark(code[n])], t.unit)
  {
  }

  lemma {:induction false} CodeDecodes(code: string, n: nat, t: Timing, heard: seq<Element>,
                                       measured: seq<Seg>, line: seq<Seg>)
    returns (m: seq<Seg>)
    requires Valid(t) && n < |code| && UpsNonNegative(line)
    requires Measures(measured, CodeLine(code, n, t, line), t.unit)
    ensures Measures(m, line, t.unit)
    ensures Decode(measured, heard, t.unit) == [Letter(heard + Elements(code[n..]))] + Decode(m, [], t.unit)
    decreases |code| - n
  {
    var heard1 := heard + [Mark(code[n])];
    ElementsTail(code, n);
    Assoc(heard, [Mark(code[n])], Elements(code[n + 1..]));
    if n == |code| - 1 {
      CodeLineStep(code, n, t, line);
      ElementDecodes(measured, code[n], t, heard, Join(Seg(false, 3.0 * t.unit), line));
      m := LetterEnds(measured[1..], heard1, line, t.unit);
      assert heard1 + Elements(code[n + 1..]) == heard1;
    } else {
      InnerDecodes(code, n, t, heard, measured, line);
      m := CodeDecodes(code, n + 1, t, heard1, measured[2..], line);
    }
  }

  function Line(table: seq<Entry>, buf: seq<Byte>, text: seq<Byte>, t: Timing): seq<Seg>
    requires WellFormed(table)
  {
    Merge(Segs(TextActs(table, buf, text, t), false))
  }

  /** The line of a text is that of its first character in front of that of the rest. */
  lemma LineStep(table: seq<Entry>, buf: seq<Byte>, text: seq<Byte>, t: Timing)
    requires WellFormed(table) && text != []
    ensures var (buf1, code) := LookupStep(table, buf, text[0]);
      Line(table, buf, text, t)
      == if IsSpace(text[0]) then Join(Seg(false, 4.0 * t.unit), Line(table, buf, text[1..], t))
         else CodeLine(code, 0, t, Line(table, buf1, text[1..], t))
  {
    var (buf1, acts) := CharActs(table, buf, text[0], t, NEVER);
    var rest := TextActs(table, buf1, text[1..], t);
    if IsSpace(text[0]) {
      assert (acts + rest)[1..] == rest;
      assert Segs(acts + rest, false) == [Seg(false, 4.0 * t.unit)] + Segs(rest, false);
      assert Segs(acts + rest, false)[1..] == Segs(rest, false);
    } else {
      CodeSegs(LookupStep(table, buf, text[0]).1, t, rest);
    }
  }

  lemma {:induction false} LineShape(table: seq<Entry>, buf: seq<Byte>, text: seq<Byte>, t: Timing)
    requires WellFormed(table) && Valid(t)
    ensures UpsNonNegative(Line(table, buf, text, t))
    decreases |text|
  {
    if text != [] {
      var (buf1, code) := LookupStep(table, buf, text[0]);
      LineStep(table, buf, text, t);
      if IsSpace(text[0]) {
        LineShape(table, buf, text[1..], t);
      } else {
        LineShape(table, buf1, text[1..], t);
        CodeLineShape(code, 0, t, Line(table, buf1, text[1..], t));
      }
    }
  }

  lemma {:induction false} DecodesAt(table: seq<Entry>, buf: seq<Byte>, text: seq<Byte>, t: Timing, measured: seq<Seg>)
    requires WellFormed(table) && Valid(t)
    requires Measures(measured, Line(table, buf, text, t), t.unit)
    ensures Decode(measured, [], t.unit) == Tokens(table, buf, text)
    decreases |text|
  {
    if text != [] {
      var (buf1, code) := LookupStep(table, buf, text[0]);
      LineStep(table, buf, text, t);
      if IsSpace(text[0]) {
        LineShape(table, buf, text[1..], t);
        var m := SpaceFirst(measured, Line(table, buf, text[1..], t), t.unit);
        DecodesAt(table, buf, text[1..], t, m);
      } else {
        LineShape(table, buf1, text[1..], t);
        if code == "" {
          DecodesAt(table, buf1, text[1..], t, measured);
          assert Tokens(table, buf, text) == [] + Tokens(table, buf1, text[1..]);
        } else {
          var m := CodeDecodes(code, 0, t, [], measured, Line(table, buf1, text[1..], t));
          assert code[0..] == code && [] + Elements(code) == Elements(code);
          DecodesAt(table, buf1, text[1..], t, m);
        }
      }
    }
  }

  /** For any text, speed, compensation and correction, the merged key line decodes
      uniquely: whoever measures every interval to within half a unit hears exactly
      the codes looked up and the spaces, in order. */
  lemma WaveDecodes(table: seq<Entry>, text: seq<Byte>, s: Settings, measured: seq<Seg>)
    requires WellFormed(table) && s.wpm > 0
    requires Measures(measured, Line(table, [], text, TimingOf(s)), TimingOf(s).unit)
    ensures Decode(measured, [], TimingOf(s).unit) == Tokens(table, [], text)
  {
    DecodesAt(table, [], text, TimingOf(s), measured);
  }

  /** Half a unit is all that can be allowed: with the largest correction a single dot that
      is measured too long is still heard as one exactly while the error is below that. */
  lemma ToleranceIsExact(table: seq<Entry>, c: Byte, s: Settings, error: real)
    requires WellFormed(table) && s.wpm > 0 && !IsSpace(c) && LookupStep(table, [], c) == ([], ".")
    requires TimingOf(s).corr == TimingOf(s).unit / 2.0 && error >= 0.0
    ensures var t := TimingOf(s);
      var line := Line(table, [], [c], t);
      && line == [Seg(true, 1.5 * t.unit), Seg(false, 3.0 * t.unit)]
      && (Decode([Seg(true, 1.5 * t.unit + error), line[1]], [], t.unit) == Tokens(table, [], [c])
          <==> error < t.unit / 2.0)
  {
    var t := TimingOf(s);
    DotActs(table, c, t);
    DotSegs(t);
    OneElementHeard(1.5 * t.unit + error, t.unit);
  }

  lemma OneElementHeard(span: real, unit: real)
    requires unit > 0.0
    ensures Decode([Seg(true, span), Seg(false, 3.0 * unit)], [], unit)
         == [Letter([if span < 2.0 * unit then Dit else Dah])]
  {
    var down, up := Seg(true, span), Seg(false, 3.0 * unit);
    var heard := if span < 2.0 * unit then Dit else Dah;
    assert [down, up][1..] == [up] && [up][1..] == [] && [] + [heard] == [heard];
    assert Decode([down, up], [], unit) == Decode([up], [heard], unit);
    assert Spaces(up.span - 3.0 * unit, unit) == [];
    assert Decode([up], [heard], unit) == [Letter([heard])] + [] + Decode([], [], unit);
  }

  lemma DotActs(table: seq<Entry>, c: Byte, t: Timing)
    requires WellFormed(table) && !IsSpace(c) && LookupStep(table, [], c) == ([], ".")
    ensures TextActs(table, [], [c], t) == ElementActs(".", 0, t)
    ensures Tokens(table, [], [c]) == [Letter([Dit])]
  {
    var acts := ElementActs(".", 0, t);
    assert [c][1..] == [] && "."[1..] == "";
    assert CodeActs(".", 1, t, NEVER) == [] && CodeActs(".", 0, t, NEVER) == acts + [] == acts;
    assert TextActs(table, [], [c], t) == acts + TextActs(table, [], [], t) == acts;
    assert Elements(".") == [Dit];
    assert Tokens(table, [], [c]) == [Letter(Elements("."))] + [];
  }

  lemma DotSegs(t: Timing)
    requires t.unit > 0.0 && t.corr == t.unit / 2.0
    ensures Merge(Segs(ElementActs(".", 0, t), false)) == [Seg(true, 1.5 * t.unit), Seg(false, 3.0 * t.unit)]
  {
    var acts := ElementActs(".", 0, t);
    assert acts[1..][1..] == acts[2..] && acts[2..][1..] == acts[3..] && acts[3..][1..] == [];
    assert Segs(acts[3..], false) == [Seg(false, 3.0 * t.unit)];
    assert Segs(acts[2..], true) == Segs(acts[3..], false);
    assert Segs(acts[1..], true) == [Seg(true, t.unit + t.corr)] + Segs(acts[2..], true);
    assert Segs(acts, false) == Segs(acts[1..], true);
    var segs := [Seg(true, 1.5 * t.unit), Seg(false, 3.0 * t.unit)];
    assert segs[1..] == [segs[1]] && [segs[1]][1..] == [];
    assert Merge([segs[1]]) == [segs[1]];
  }
}
