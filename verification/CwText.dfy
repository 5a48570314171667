/** What a listener hears of a text: the keyer feeds the bytes of its characters to the
    Morse lookup one at a time, all but spaces and newlines. */
module CwText {
  import opened Common
  import opened Morse
  import opened CwWave

  /** A space or a newline: keyed as a gap, without a look at the lookup buffer. */
  predicate Spacing(c: CodePoint) { c == ' ' as int || c == 0x0a }

  /** The text as it was typed: the code of every character that has one, and the spaces. */
  function Typed(table: seq<Entry>, text: seq<CodePoint>): seq<Token>
    requires WellFormed(table)
  {
    if text == [] then [] else TypedOne(table, text[0]) + Typed(table, text[1..])
  }

  function TypedOne(table: seq<Entry>, c: CodePoint): seq<Token>
    requires WellFormed(table)
  {
    if Spacing(c) then [Space]
    else if CodeOf(table, c) == "" then [] else [Letter(Elements(CodeOf(table, c)))]
  }

  /** Whether the buffer holds a left-over byte after a character: spaces and newlines
      leave it alone, any other ASCII character empties it, and a three-byte character
      leaves its last byte or uses up the one that was there. */
  function StaleAfter(c: CodePoint, stale: bool): bool {
    if Spacing(c) then stale
    else if c < 0x80 then false
    else if 0x800 <= c < 0x10000 then !stale
    else stale
  }

  /** The character has a code and is not a space or newline. */
  predicate Coded(table: seq<Entry>, c: CodePoint)
    requires WellFormed(table)
  {
    !Spacing(c) && CodeOf(table, c) != ""
  }

  /** Some character that has a code is met while a left-over byte is in the buffer. */
  predicate Swallows(table: seq<Entry>, text: seq<CodePoint>, stale: bool)
    requires WellFormed(table)
  {
    text != [] &&
    ((stale && Coded(table, text[0])) || Swallows(table, text[1..], StaleAfter(text[0], stale)))
  }

  /** What is left of the text: all but the characters met behind a left-over byte. */
  function Kept(table: seq<Entry>, text: seq<CodePoint>, stale: bool): seq<Token>
    requires WellFormed(table)
  {
    if text == [] then []
    else (if stale && Coded(table, text[0]) then [] else TypedOne(table, text[0]))
         + Kept(table, text[1..], StaleAfter(text[0], stale))
  }

  function Letters(codes: seq<string>): seq<Token> {
    if codes == [] then [] else [Letter(Elements(codes[0]))] + Letters(codes[1..])
  }

  /** Bytes none of which is a space go through the lookup one after another. */
  lemma {:induction false} TokensOfStream(table: seq<Entry>, buf: seq<Byte>, u: seq<Byte>, rest: seq<Byte>)
    requires WellFormed(table)
    requires forall i :: 0 <= i < |u| ==> !IsSpace(u[i])
    ensures var (buf1, codes) := Stream(table, buf, u);
      Tokens(table, buf, u + rest) == Letters(codes) + Tokens(table, buf1, rest)
    decreases |u|
  {
    Front(u, rest);
    if u != [] {
      var (buf0, code) := LookupStep(table, buf, u[0]);
      var (buf1, codes) := Stream(table, buf0, u[1..]);
      TokensOfStream(table, buf0, u[1..], rest);
      if code == "" {
        assert Stream(table, buf, u).1 == codes;
      } else {
        assert ([code] + codes)[1..] == codes;
        Assoc([Letter(Elements(code))], Letters(codes), Tokens(table, buf1, rest));
      }
    }
  }

  /** One character that is not a space, in front of the rest. */
  lemma CharacterTokens(table: seq<Entry>, buf: seq<Byte>, c: CodePoint, rest: seq<Byte>) returns (buf1: seq<Byte>)
    requires WellFormed(table) && (buf == [] || Stale(buf)) && !Spacing(c)
    ensures (buf1 == [] || Stale(buf1)) && Stale(buf1) == StaleAfter(c, Stale(buf))
    ensures Tokens(table, buf, Utf8(c) + rest)
         == (if Stale(buf) && Coded(table, c) then [] else TypedOne(table, c)) + Tokens(table, buf1, rest)
  {
    Utf8Shape(c);
    OneSequence(table, buf, Utf8(c));
    TokensOfStream(table, buf, Utf8(c), rest);
    buf1 := Stream(table, buf, Utf8(c)).0;
    var code := CodeOf(table, c);
    assert [code][1..] == [] && Letters([code]) == [Letter(Elements(code))];
  }

  /** What the keyer makes of a text, from a buffer that is empty or holds a left-over byte. */
  lemma {:induction false} KeyedTokens(table: seq<Entry>, buf: seq<Byte>, text: seq<CodePoint>)
    requires WellFormed(table) && (buf == [] || Stale(buf))
    ensures Tokens(table, buf, Utf8All(text)) == Kept(table, text, Stale(buf))
    decreases |text|
  {
    if text != [] {
      var c, rest := text[0], Utf8All(text[1..]);
      if Spacing(c) {
        assert Utf8(c) + rest == [c] + rest && ([c] + rest)[1..] == rest;
        KeyedTokens(table, buf, text[1..]);
      } else {
        var buf1 := CharacterTokens(table, buf, c, rest);
        KeyedTokens(table, buf1, text[1..]);
      }
    }
  }

  lemma {:induction false} KeptIsAll(table: seq<Entry>, text: seq<CodePoint>, stale: bool)
    requires WellFormed(table)
    ensures |Kept(table, text, stale)| <= |Typed(table, text)|
    ensures Swallows(table, text, stale) ==> |Kept(table, text, stale)| < |Typed(table, text)|
    ensures !Swallows(table, text, stale) ==> Kept(table, text, stale) == Typed(table, text)
  {
    if text != [] { KeptIsAll(table, text[1..], StaleAfter(text[0], stale)); }
  }

  /** For any text at all, the keyer keys the codes of its characters and its spaces, in
      order, exactly when no coded character other than a space or newline is met behind a
      left-over byte. */
  lemma StreamMatches(table: seq<Entry>, text: seq<CodePoint>)
    requires WellFormed(table)
    ensures Tokens(table, [], Utf8All(text)) == Typed(table, text) <==> !Swallows(table, text, false)
  {
    KeyedTokens(table, [], text);
    KeptIsAll(table, text, false);
  }

  /** The same on the key line: whoever measures it to within half a unit hears what was
      typed exactly when nothing is swallowed. */
  lemma HeardAsTyped(table: seq<Entry>, text: seq<CodePoint>, s: Settings, measured: seq<Seg>)
    requires WellFormed(table) && s.wpm > 0
    requires Measures(measured, Line(table, [], Utf8All(text), TimingOf(s)), TimingOf(s).unit)
    ensures Decode(measured, [], TimingOf(s).unit) == Typed(table, text) <==> !Swallows(table, text, false)
  {
    WaveDecodes(table, Utf8All(text), s, measured);
    StreamMatches(table, text);
  }

  lemma {:induction false} ShortNeverSwallows(table: seq<Entry>, text: seq<CodePoint>)
    requires WellFormed(table)
    requires forall i :: 0 <= i < |text| ==> text[i] < 0x800
    ensures !Swallows(table, text, false)
  {
    if text != [] { ShortNeverSwallows(table, text[1..]); }
  }

  /** Text below U+0800 is always heard as it was typed, at any speed, compensation and
      correction, and for any prosigns: every table the keyer loads is well-formed. */
  lemma TwoByteTextHeard(table: seq<Entry>, text: seq<CodePoint>, s: Settings, measured: seq<Seg>)
    requires WellFormed(table) && s.wpm > 0
    requires forall i :: 0 <= i < |text| ==> text[i] < 0x800
    requires Measures(measured, Line(table, [], Utf8All(text), TimingOf(s)), TimingOf(s).unit)
    ensures Decode(measured, [], TimingOf(s).unit) == Typed(table, text)
  {
    ShortNeverSwallows(table, text);
    HeardAsTyped(table, text, s, measured);
  }

  /** The euro sign leaves a byte behind: the next letter is never keyed, even across a space. */
  lemma EuroSwallows(table: seq<Entry>)
    requires WellFormed(table) && Coded(table, 'A' as int)
    ensures var text := [0x20AC, ' ' as int, 'A' as int];
      Tokens(table, [], Utf8All(text)) != Typed(table, text)
  {
    var text := [0x20AC, ' ' as int, 'A' as int];
    assert text[1..] == [' ' as int, 'A' as int] && text[1..][1..] == ['A' as int];
    assert Swallows(table, ['A' as int], true);
    assert Swallows(table, text[1..], true);
    StreamMatches(table, text);
  }
}
