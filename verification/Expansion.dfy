/** The loops of `add_cwio` in `src/cwio/cwio.cxx` against the single left-to-right
    substitution they are meant to be. */
module Expansion {
  import opened Common
  import opened Macros

  // ---- One substitution -------------------------------------------------------

  /** What `~c` stands for while the serial number is `n`, if it is a macro. */
  function Value(c: char, f: Fields, n: nat): Option<string> {
    if c == 'C' || c == 'c' then f.call
    else if c == 'N' || c == 'n' then f.name
    else if c == 'R' || c == 'r' then f.rst
    else if c == '#' && f.counter then Some(Serial(n, f))
    else if (c == '+' || c == '-') && f.counter then Some("")
    else None
  }

  /** The parts of a text, read once from left to right. */
  datatype Part = Lit(c: char) | Macro(c: char)

  predicate MacroAt(s: string, i: nat, f: Fields) {
    i + 1 < |s| && s[i] == '~' && Value(s[i + 1], f, 0).Some?
  }

  function Parts(s: string, f: Fields): seq<Part>
    decreases |s|
  {
    if s == "" then []
    else if MacroAt(s, 0, f) then [Macro(s[1])] + Parts(s[2..], f)
    else [Lit(s[0])] + Parts(s[1..], f)
  }

  function RenderOne(part: Part, f: Fields, n: nat): string {
    match part
    case Lit(c) => [c]
    case Macro(c) => match Value(c, f, n) case Some(v) => v case None => ['~', c]
  }

  function Render(parts: seq<Part>, f: Fields, n: nat): string {
    if parts == [] then "" else RenderOne(parts[0], f, n) + Render(parts[1..], f, n)
  }

  /** The single left-to-right substitution. */
  function Expand(s: string, f: Fields, n: nat): string { Render(Parts(s, f), f, n) }

  function Count(parts: seq<Part>, c: char): nat {
    if parts == [] then 0 else (if parts[0] == Macro(c) then 1 else 0) + Count(parts[1..], c)
  }

  // ---- Tildes -----------------------------------------------------------------

  function Tildes(s: string): nat {
    if s == "" then 0 else (if s[0] == '~' then 1 else 0) + Tildes(s[1..])
  }

  lemma {:induction false} TildesAppend(a: string, b: string)
    ensures Tildes(a + b) == Tildes(a) + Tildes(b)
  {
    Front(a, b);
    if a != "" { TildesAppend(a[1..], b); }
  }

  lemma {:induction false} NoTildes(s: string)
    requires '~' !in s
    ensures Tildes(s) == 0
  {
    if s != "" { NoTildes(s[1..]); }
  }

  // ---- Which tildes are captured ---------------------------------------------------

  /** The order of the loops; 6 for a character that is no macro's letter. */
  function Rank(c: char): nat {
    if c == 'C' || c == 'c' then 0
    else if c == 'N' || c == 'n' then 1
    else if c == 'R' || c == 'r' then 2
    else if c == '#' then 3
    else if c == '+' then 4
    else if c == '-' then 5
    else 6
  }

  /** A tilde in front of `c` is replaced by loop `k` or a later one. */
  predicate Takes(c: char, f: Fields, k: nat) { Value(c, f, 0).Some? && Rank(c) >= k }

  /** From loop `k` on, when the value of a macro is in place. */
  function From(part: Part, k: nat): nat { if part.Macro? && k < Rank(part.c) then Rank(part.c) else k }

  /** From loop `k` on, a tilde in front of these parts comes to stand in front of a
      letter that a loop still looks for: a literal one, or the first of a value once
      that value is in place.  An empty value passes the question on. */
  predicate Completes(parts: seq<Part>, f: Fields, n: nat, k: nat) {
    parts != [] &&
    var (v, j) := (RenderOne(parts[0], f, n), From(parts[0], k));
    if v == "" then Completes(parts[1..], f, n, j) else Takes(v[0], f, j)
  }

  /** Some tilde of a text is captured: by the letter behind it, or the last one by the
      parts behind the text. */
  predicate TextCaptured(v: string, behind: bool, f: Fields, k: nat) {
    v != "" &&
    ((v[0] == '~' && if |v| == 1 then behind else Takes(v[1], f, k)) || TextCaptured(v[1..], behind, f, k))
  }

  /** Some literal tilde, or one in a value, is captured by what follows it. */
  predicate Captured(parts: seq<Part>, f: Fields, n: nat, k: nat) {
    parts != [] &&
    var j := From(parts[0], k);
    TextCaptured(RenderOne(parts[0], f, n), Completes(parts[1..], f, n, j), f, j) || Captured(parts[1..], f, n, k)
  }

  // ---- The parts a loop leaves -------------------------------------------------------

  function SourceOne(part: Part): string {
    match part
    case Lit(c) => [c]
    case Macro(c) => ['~', c]
  }

  /** The text that parts stand for. */
  function Source(parts: seq<Part>): string {
    if parts == [] then "" else SourceOne(parts[0]) + Source(parts[1..])
  }

  lemma {:induction false} SourceOfParts(s: string, f: Fields)
    ensures Source(Parts(s, f)) == s
    ensures MacrosFrom(Parts(s, f), f, 0)
    decreases |s|
  {
    if s != "" {
      SourceOfParts(if MacroAt(s, 0, f) then s[2..] else s[1..], f);
    }
  }

  /** All macros in the parts belong to loop `k` or a later one. */
  predicate MacrosFrom(parts: seq<Part>, f: Fields, k: nat) {
    forall part :: part in parts && part.Macro? ==> Takes(part.c, f, k)
  }

  function LooseTildes(parts: seq<Part>): nat {
    if parts == [] then 0 else (if parts[0] == Lit('~') then 1 else 0) + LooseTildes(parts[1..])
  }

  function Lits(v: string): seq<Part> { if v == "" then [] else [Lit(v[0])] + Lits(v[1..]) }

  /** The parts after a replacement at position `p` of their text. */
  function Swap(parts: seq<Part>, p: nat, v: string): seq<Part> {
    if parts == [] then Lits(v)
    else if p > 0 then [parts[0]] + Swap(parts[1..], Before(p, parts[0]), v)
    else if parts[0].Macro? || |parts| == 1 then Lits(v) + parts[1..]
    else Lits(v) + parts[2..]
  }

  function Before(p: nat, part: Part): nat {
    if p < |SourceOne(part)| then 0 else p - |SourceOne(part)|
  }

  /** `~x` is at `p`, and no part's own letter is a tilde. */
  predicate Found(parts: seq<Part>, p: nat, x: char, f: Fields) {
    && MacrosFrom(parts, f, 0)
    && p + 1 < |Source(parts)| && Source(parts)[p] == '~' && Source(parts)[p + 1] == x != '~'
  }

  /** What was found is a macro, or a literal tilde and a literal letter behind it. */
  lemma FoundFirst(parts: seq<Part>, x: char, f: Fields)
    requires Found(parts, 0, x, f)
    ensures parts[0] == Macro(x) || (|parts| > 1 && parts[0] == Lit('~') && parts[1] == Lit(x))
  {
    if parts[0].Lit? {
      assert Source(parts)[1..] == Source(parts[1..]);
      assert Source(parts[1..])[0] == x;
    }
  }

  lemma FoundLater(parts: seq<Part>, p: nat, x: char, f: Fields)
    requires Found(parts, p, x, f) && p > 0
    ensures p >= |SourceOne(parts[0])|
    ensures Found(parts[1..], Before(p, parts[0]), x, f)
  {
    assert parts[0] in parts;
    var head, tail := SourceOne(parts[0]), Source(parts[1..]);
    assert Source(parts) == head + tail;
  }

  lemma {:induction false} LitsSource(v: string, rest: seq<Part>)
    ensures Source(Lits(v) + rest) == v + Source(rest)
  {
    Front(Lits(v), rest);
    if v != "" {
      LitsSource(v[1..], rest);
      assert Lits(v)[1..] == Lits(v[1..]);
    }
  }

  /** Replacing in the parts is replacing in the text. */
  lemma {:induction false} SwapSource(parts: seq<Part>, p: nat, x: char, v: string, f: Fields)
    requires Found(parts, p, x, f)
    ensures Source(Swap(parts, p, v)) == Replace(Source(parts), p, v)
  {
    if p > 0 {
      FoundLater(parts, p, x, f);
      SwapSource(parts[1..], Before(p, parts[0]), x, v, f);
      Front([parts[0]], Swap(parts[1..], Before(p, parts[0]), v));
      ReplaceBehind(SourceOne(parts[0]), Source(parts[1..]), p, v);
    } else {
      SwapFirst(parts, x, v, f);
    }
  }

  lemma SwapFirst(parts: seq<Part>, x: char, v: string, f: Fields)
    requires Found(parts, 0, x, f)
    ensures Source(Swap(parts, 0, v)) == Replace(Source(parts), 0, v)
  {
    FoundFirst(parts, x, f);
    var rest := if parts[0].Macro? then parts[1..] else parts[2..];
    LitsSource(v, rest);
    MacroSource(parts, x, rest);
  }

  lemma MacroSource(parts: seq<Part>, x: char, rest: seq<Part>)
    requires parts != []
    requires (parts[0] == Macro(x) && rest == parts[1..])
          || (|parts| > 1 && parts[0] == Lit('~') && parts[1] == Lit(x) && rest == parts[2..])
    ensures Source(parts) == ['~', x] + Source(rest) && Source(parts)[2..] == Source(rest)
  {
    var t := Source(rest);
    if parts[0].Lit? {
      assert parts[1..][1..] == rest;
      Assoc(['~'], [x], t);
    }
  }

  lemma ReplaceBehind(head: string, tail: string, p: nat, v: string)
    requires |head| <= p && p + 2 <= |head + tail|
    ensures Replace(head + tail, p, v) == head + Replace(tail, p - |head|, v)
  {
    assert (head + tail)[..p] == head + tail[..p - |head|];
    assert (head + tail)[p + 2..] == tail[p - |head| + 2..];
  }

  /** Literals in front add their own text. */
  lemma {:induction false} LitsInFront(v: string, rest: seq<Part>, f: Fields, n: nat, c: char)
    ensures '~' !in v ==> LooseTildes(Lits(v) + rest) == LooseTildes(rest)
    ensures Render(Lits(v) + rest, f, n) == v + Render(rest, f, n)
    ensures Count(Lits(v) + rest, c) == Count(rest, c)
    ensures forall part :: part in Lits(v) + rest && part.Macro? ==> part in rest
  {
    Front(Lits(v), rest);
    if v != "" {
      LitsInFront(v[1..], rest, f, n, c);
      assert Lits(v)[1..] == Lits(v[1..]);
      assert Lits(v) + rest == [Lit(v[0])] + (Lits(v[1..]) + rest);
    }
  }

  /** And the tildes captured in it. */
  lemma {:induction false} LitsCaptured(v: string, rest: seq<Part>, f: Fields, n: nat, k: nat)
    ensures Captured(Lits(v) + rest, f, n, k)
       <==> TextCaptured(v, Completes(rest, f, n, k), f, k) || Captured(rest, f, n, k)
  {
    Front(Lits(v), rest);
    if v != "" {
      LitsCaptured(v[1..], rest, f, n, k);
      assert Lits(v)[1..] == Lits(v[1..]);
      LitInFront(v[0], Lits(v[1..]) + rest, f, n, k);
      LitsComplete(v[1..], rest, f, n, k);
    }
  }

  lemma LitInFront(c: char, tail: seq<Part>, f: Fields, n: nat, k: nat)
    ensures Captured([Lit(c)] + tail, f, n, k)
       <==> (c == '~' && Completes(tail, f, n, k)) || Captured(tail, f, n, k)
  {
    var behind := Completes(tail, f, n, k);
    assert ([Lit(c)] + tail)[1..] == tail && [c][1..] == "";
    assert TextCaptured([c], behind, f, k) <==> c == '~' && behind;
  }

  lemma LitsComplete(v: string, rest: seq<Part>, f: Fields, n: nat, k: nat)
    ensures Completes(Lits(v) + rest, f, n, k) == if v == "" then Completes(rest, f, n, k) else Takes(v[0], f, k)
  {
    Front(Lits(v), rest);
  }

  // ---- One replacement ------------------------------------------------------------------

  /** What is found at `p` is a macro, not a literal tilde and a literal letter. */
  predicate IsMacro(parts: seq<Part>, p: nat) {
    parts != [] && if p > 0 then IsMacro(parts[1..], Before(p, parts[0])) else parts[0].Macro?
  }

  /** One replacement by loop `k` leaves no new macro; a plain value adds no tilde. */
  lemma {:induction false} SwapMacros(parts: seq<Part>, p: nat, x: char, v: string, f: Fields, k: nat)
    requires Found(parts, p, x, f) && MacrosFrom(parts, f, k)
    ensures MacrosFrom(Swap(parts, p, v), f, k)
    ensures '~' !in v ==> LooseTildes(parts) == LooseTildes(Swap(parts, p, v)) + if IsMacro(parts, p) then 0 else 1
  {
    if p > 0 {
      FoundLater(parts, p, x, f);
      SwapMacros(parts[1..], Before(p, parts[0]), x, v, f, k);
      Front([parts[0]], Swap(parts[1..], Before(p, parts[0]), v));
    } else {
      FoundFirst(parts, x, f);
      assert |parts| > 1 ==> parts[1..][1..] == parts[2..];
      LitsInFront(v, if parts[0].Macro? then parts[1..] else parts[2..], f, 0, x);
    }
  }

  /** A literal tilde that is replaced was captured. */
  lemma {:induction false} SwapCaptures(parts: seq<Part>, p: nat, x: char, f: Fields, n: nat, k: nat)
    requires Found(parts, p, x, f) && Takes(x, f, k) && !IsMacro(parts, p)
    ensures Captured(parts, f, n, k)
  {
    if p > 0 {
      FoundLater(parts, p, x, f);
      SwapCaptures(parts[1..], Before(p, parts[0]), x, f, n, k);
    } else {
      FoundFirst(parts, x, f);
      assert parts == [Lit('~')] + parts[1..];
      LitInFront('~', parts[1..], f, n, k);
    }
  }

  /** A macro is replaced by its value: no tilde in front, from loop `j` on, sees a
      difference. */
  lemma {:induction false} SwapCompletes(parts: seq<Part>, p: nat, x: char, v: string, f: Fields, n: nat, j: nat)
    requires Found(parts, p, x, f) && Value(x, f, n) == Some(v) && Rank(x) <= j && IsMacro(parts, p)
    ensures Completes(Swap(parts, p, v), f, n, j) == Completes(parts, f, n, j)
  {
    if p > 0 {
      FoundLater(parts, p, x, f);
      Front([parts[0]], Swap(parts[1..], Before(p, parts[0]), v));
      SwapCompletes(parts[1..], Before(p, parts[0]), x, v, f, n, From(parts[0], j));
    } else {
      FoundFirst(parts, x, f);
      LitsComplete(v, parts[1..], f, n, j);
    }
  }

  /** The substitution and the other macros stay. */
  lemma {:induction false} SwapKeeps(parts: seq<Part>, p: nat, x: char, v: string, f: Fields, n: nat, c: char)
    requires Found(parts, p, x, f) && Value(x, f, n) == Some(v) && IsMacro(parts, p)
    ensures Render(Swap(parts, p, v), f, n) == Render(parts, f, n)
    ensures Count(parts, c) == Count(Swap(parts, p, v), c) + if c == x then 1 else 0
  {
    if p > 0 {
      FoundLater(parts, p, x, f);
      var q := Before(p, parts[0]);
      Front([parts[0]], Swap(parts[1..], q, v));
      SwapKeeps(parts[1..], q, x, v, f, n, c);
    } else {
      FoundFirst(parts, x, f);
      LitsInFront(v, parts[1..], f, n, c);
    }
  }

  /** So do the captured tildes. */
  lemma {:induction false} SwapKeepsCaptured(parts: seq<Part>, p: nat, x: char, v: string, f: Fields, n: nat, k: nat)
    requires Found(parts, p, x, f) && Value(x, f, n) == Some(v) && Rank(x) <= k && IsMacro(parts, p)
    ensures Captured(Swap(parts, p, v), f, n, k) == Captured(parts, f, n, k)
  {
    if p > 0 {
      FoundLater(parts, p, x, f);
      var q := Before(p, parts[0]);
      Front([parts[0]], Swap(parts[1..], q, v));
      SwapKeepsCaptured(parts[1..], q, x, v, f, n, k);
      SwapCompletes(parts[1..], q, x, v, f, n, From(parts[0], k));
    } else {
      FoundFirst(parts, x, f);
      LitsCaptured(v, parts[1..], f, n, k);
    }
  }

  // ---- One loop -----------------------------------------------------------------------------

  /** Loops `j` to `k - 1` turned `parts` into `left`.  Either nothing but macros was
      replaced, or a tilde was captured; plain fields never bring one back. */
  predicate Stage(parts: seq<Part>, left: seq<Part>, f: Fields, n: nat, j: nat, k: nat) {
    && MacrosFrom(left, f, k)
    && (PlainFields(f) ==> LooseTildes(left) <= LooseTildes(parts))
    && (Alike(parts, left, f, n, j, k)
        || (Captured(parts, f, n, j) && (PlainFields(f) ==> LooseTildes(left) < LooseTildes(parts))))
  }

  predicate Alike(parts: seq<Part>, left: seq<Part>, f: Fields, n: nat, j: nat, k: nat) {
    && Render(left, f, n) == Render(parts, f, n)
    && (Captured(parts, f, n, j) <==> Captured(left, f, n, k))
    && forall c :: Rank(c) >= k && Rank(c) > j ==> Count(left, c) == Count(parts, c)
  }

  lemma Stages(a: seq<Part>, b: seq<Part>, c: seq<Part>, f: Fields, n: nat, i: nat, j: nat, k: nat)
    requires Stage(a, b, f, n, i, j) && Stage(b, c, f, n, j, k) && i <= j < k
    ensures Stage(a, c, f, n, i, k)
  {
  }

  /** Nothing is left for loop `k` to find. */
  predicate Done(parts: seq<Part>, f: Fields, k: nat) {
    parts != [] ==>
      && (parts[0].Macro? ==> Rank(parts[0].c) != k)
      && (parts[0] == Lit('~') && |parts| > 1 && parts[1].Lit? && Rank(parts[1].c) == k ==>
            Value(parts[1].c, f, 0).None?)
      && Done(parts[1..], f, k)
  }

  lemma {:induction false} DoneCaptures(parts: seq<Part>, f: Fields, n: nat, k: nat)
    requires MacrosFrom(parts, f, k) && Done(parts, f, k)
    ensures Captured(parts, f, n, k) <==> Captured(parts, f, n, k + 1)
    ensures MacrosFrom(parts, f, k + 1)
  {
    if parts != [] {
      assert parts[0] in parts;
      DoneCaptures(parts[1..], f, n, k);
      if parts[0].Lit? {
        assert parts == [parts[0]] + parts[1..];
        LitInFront(parts[0].c, parts[1..], f, n, k);
        LitInFront(parts[0].c, parts[1..], f, n, k + 1);
        if |parts| > 1 && parts[1].Macro? { assert parts[1] in parts; }
      }
    }
  }

  /** Parts with nothing for loop `k` pass it unchanged. */
  lemma DoneStage(parts: seq<Part>, f: Fields, n: nat, k: nat)
    requires MacrosFrom(parts, f, k) && Done(parts, f, k)
    ensures Stage(parts, parts, f, n, k, k + 1)
  {
    DoneCaptures(parts, f, n, k);
  }

  /** A macro `~c`, literal or not, shows in the text. */
  lemma MacroShows(parts: seq<Part>, c: char)
    requires parts != []
    requires parts[0] == Macro(c) || (parts[0] == Lit('~') && |parts| > 1 && parts[1] == Lit(c))
    ensures !Absent(Source(parts), c)
  {
    var s, t := Source(parts), Source(parts[1..]);
    assert s == SourceOne(parts[0]) + t;
    assert parts[0].Lit? ==> t[0] == c;
    assert s[0] == '~' && s[1] == c;
  }

  lemma AbsentBehind(head: string, tail: string, c: char)
    requires Absent(head + tail, c)
    ensures Absent(tail, c)
  {
    var s := head + tail;
    forall i | 0 <= i < |tail| - 1 ensures !(tail[i] == '~' && tail[i + 1] == c) {
      assert tail[i] == s[|head| + i] && tail[i + 1] == s[|head| + i + 1];
    }
  }

  lemma AbsentTail(parts: seq<Part>, c: char)
    requires parts != [] && Absent(Source(parts), c)
    ensures Absent(Source(parts[1..]), c)
    ensures parts[0] != Macro(c)
    ensures !(parts[0] == Lit('~') && |parts| > 1 && parts[1] == Lit(c))
  {
    AbsentBehind(SourceOne(parts[0]), Source(parts[1..]), c);
    if parts[0] == Macro(c) || (parts[0] == Lit('~') && |parts| > 1 && parts[1] == Lit(c)) {
      MacroShows(parts, c);
    }
  }

  /** The letters of loop `k`, if there is a value for them. */
  predicate LoopOf(upper: char, lower: char, k: nat) {
    && Rank(upper) == Rank(lower) == k < 6
    && forall c :: Rank(c) == k ==> c == upper || c == lower
  }

  lemma {:induction false} AbsentIsDone(parts: seq<Part>, upper: char, lower: char, f: Fields, k: nat)
    requires LoopOf(upper, lower, k) && Absent(Source(parts), upper) && Absent(Source(parts), lower)
    ensures Done(parts, f, k)
  {
    if parts != [] {
      AbsentTail(parts, upper);
      AbsentTail(parts, lower);
      AbsentIsDone(parts[1..], upper, lower, f, k);
    }
  }

  lemma {:induction false} NoneIsDone(parts: seq<Part>, f: Fields, k: nat)
    requires MacrosFrom(parts, f, k)
    requires forall c :: Rank(c) == k ==> Value(c, f, 0).None?
    ensures Done(parts, f, k)
  {
    if parts != [] {
      assert parts[0] in parts;
      NoneIsDone(parts[1..], f, k);
    }
  }

  lemma {:induction false} DoneCount(parts: seq<Part>, f: Fields, c: char)
    requires Done(parts, f, Rank(c))
    ensures Count(parts, c) == 0
  {
    if parts != [] { DoneCount(parts[1..], f, c); }
  }

  /** What stands for a macro is plain if the fields are. */
  lemma PlainMacro(x: char, v: string, f: Fields, n: nat)
    requires PlainFields(f) && Value(x, f, n) == Some(v)
    ensures '~' !in v
  {
    SerialIsPlain(n, f);
  }

  /** One replacement of loop `k`. */
  lemma SwapStage(parts: seq<Part>, p: nat, x: char, v: string, f: Fields, n: nat, k: nat)
    requires Found(parts, p, x, f) && MacrosFrom(parts, f, k) && Rank(x) == k && Value(x, f, n) == Some(v)
    ensures Stage(parts, Swap(parts, p, v), f, n, k, k)
    ensures !Captured(parts, f, n, k) ==> Count(parts, x) == Count(Swap(parts, p, v), x) + 1
  {
    var left := Swap(parts, p, v);
    if PlainFields(f) { PlainMacro(x, v, f, n); }
    SwapMacros(parts, p, x, v, f, k);
    if IsMacro(parts, p) {
      SwapKeepsCaptured(parts, p, x, v, f, n, k);
      SwapKeeps(parts, p, x, v, f, n, x);
      forall c | Rank(c) > k ensures Count(left, c) == Count(parts, c) {
        SwapKeeps(parts, p, x, v, f, n, c);
      }
    } else {
      SwapCaptures(parts, p, x, f, n, k);
    }
  }

  /** A loop that finds nothing is done. */
  lemma NoHitStage(parts: seq<Part>, upper: char, lower: char, f: Fields, n: nat, k: nat)
    requires MacrosFrom(parts, f, k) && LoopOf(upper, lower, k)
    requires Hit(Source(parts), upper, lower).None?
    ensures Stage(parts, parts, f, n, k, k + 1) && Count(parts, upper) == 0
  {
    FindsFirst(Source(parts), upper, 0);
    FindsFirst(Source(parts), lower, 0);
    AbsentIsDone(parts, upper, lower, f, k);
    DoneStage(parts, f, n, k);
    DoneCount(parts, f, upper);
  }

  /** What a loop does with a hit. */
  lemma HitStage(parts: seq<Part>, upper: char, lower: char, v: string, f: Fields, n: nat, k: nat)
    returns (next: seq<Part>)
    requires MacrosFrom(parts, f, k) && LoopOf(upper, lower, k)
    requires Value(upper, f, n) == Some(v) == Value(lower, f, n) && Tame(v, upper, lower)
    requires Hit(Source(parts), upper, lower).Some?
    ensures Source(next) == Replace(Source(parts), Hit(Source(parts), upper, lower).value, v)
    ensures Remaining(Source(next), upper, lower, v) < Remaining(Source(parts), upper, lower, v)
    ensures Stage(parts, next, f, n, k, k)
    ensures !Captured(parts, f, n, k) && upper == lower ==> Count(parts, upper) == Count(next, upper) + 1
  {
    var s := Source(parts);
    var p := Hit(s, upper, lower).value;
    next := Swap(parts, p, v);
    SwapSource(parts, p, s[p + 1], v, f);
    OneLess(s, p, upper, lower, v);
    SwapStage(parts, p, s[p + 1], v, f, n, k);
  }

  /** One loop, run to its end. */
  lemma {:induction false} PassStage(parts: seq<Part>, upper: char, lower: char, v: string, f: Fields, n: nat, k: nat)
    returns (left: seq<Part>)
    requires MacrosFrom(parts, f, k) && LoopOf(upper, lower, k)
    requires Value(upper, f, n) == Some(v) == Value(lower, f, n) && Tame(v, upper, lower)
    ensures Source(left) == Pass(Source(parts), upper, lower, v)
    ensures Stage(parts, left, f, n, k, k + 1)
    ensures !Captured(parts, f, n, k) && upper == lower ==>
      Hits(Source(parts), upper, lower, v) == Count(parts, upper)
    decreases Remaining(Source(parts), upper, lower, v)
  {
    if Hit(Source(parts), upper, lower).None? {
      NoHitStage(parts, upper, lower, f, n, k);
      left := parts;
    } else {
      var next := HitStage(parts, upper, lower, v, f, n, k);
      left := PassStage(next, upper, lower, v, f, n, k);
      Stages(parts, next, left, f, n, k, k, k + 1);
    }
  }

  /** A loop that follows others. */
  lemma PassAfter(parts: seq<Part>, a: seq<Part>, upper: char, lower: char, v: string, f: Fields, n: nat, k: nat)
    returns (left: seq<Part>)
    requires Stage(parts, a, f, n, 0, k) && LoopOf(upper, lower, k)
    requires Value(upper, f, n) == Some(v) == Value(lower, f, n) && Tame(v, upper, lower)
    ensures Source(left) == Pass(Source(a), upper, lower, v)
    ensures Stage(parts, left, f, n, 0, k + 1)
    ensures !Captured(parts, f, n, 0) && upper == lower && k > 0 ==>
      Hits(Source(a), upper, lower, v) == Count(parts, upper)
  {
    left := PassStage(a, upper, lower, v, f, n, k);
    Stages(parts, a, left, f, n, 0, k, k + 1);
  }

  /** The letters and the value of a field's loop. */
  ghost predicate FieldLoop(upper: char, lower: char, v: Option<string>, f: Fields, k: nat) {
    LoopOf(upper, lower, k) && forall n :: Value(upper, f, n) == v == Value(lower, f, n)
  }

  lemma FieldLoops(f: Fields)
    ensures FieldLoop('C', 'c', f.call, f, 0) && FieldLoop('N', 'n', f.name, f, 1) && FieldLoop('R', 'r', f.rst, f, 2)
  {
  }

  /** A loop over a field, or no loop if the field is absent. */
  lemma FieldAfter(parts: seq<Part>, a: seq<Part>, upper: char, lower: char, v: Option<string>, f: Fields, n: nat,
                   k: nat)
    returns (left: seq<Part>)
    requires Stage(parts, a, f, n, 0, k) && FieldLoop(upper, lower, v, f, k) && TameField(v, upper, lower)
    ensures Source(left) == FieldPass(Source(a), upper, lower, v)
    ensures Stage(parts, left, f, n, 0, k + 1)
  {
    if v.Some? {
      left := PassAfter(parts, a, upper, lower, v.value, f, n, k);
    } else {
      NothingAfter(parts, a, f, n, k);
      left := a;
    }
  }

  /** Parts pass a loop that has no value. */
  lemma NothingAfter(parts: seq<Part>, a: seq<Part>, f: Fields, n: nat, k: nat)
    requires Stage(parts, a, f, n, 0, k)
    requires forall c :: Rank(c) == k ==> Value(c, f, 0).None?
    ensures Stage(parts, a, f, n, 0, k + 1)
  {
    NoneIsDone(a, f, k);
    DoneStage(a, f, n, k);
    Stages(parts, a, a, f, n, 0, k, k + 1);
  }

  /** The three field loops together. */
  lemma FieldStages(parts: seq<Part>, f: Fields, n: nat) returns (left: seq<Part>)
    requires MacrosFrom(parts, f, 0) && TameFields(f)
    ensures Source(left) == FieldPasses(Source(parts), f)
    ensures Stage(parts, left, f, n, 0, 3)
  {
    FieldLoops(f);
    var a := FieldAfter(parts, parts, 'C', 'c', f.call, f, n, 0);
    left := NameAndRst(parts, a, f, n);
  }

  lemma NameAndRst(parts: seq<Part>, a: seq<Part>, f: Fields, n: nat) returns (left: seq<Part>)
    requires Stage(parts, a, f, n, 0, 1) && TameFields(f)
    ensures Source(left) == FieldPass(FieldPass(Source(a), 'N', 'n', f.name), 'R', 'r', f.rst)
    ensures Stage(parts, left, f, n, 0, 3)
  {
    FieldLoops(f);
    var b := FieldAfter(parts, a, 'N', 'n', f.name, f, n, 1);
    left := FieldAfter(parts, b, 'R', 'r', f.rst, f, n, 2);
  }

  /** The `~#` and `~+` loops. */
  lemma RaisedAfter(parts: seq<Part>, a: seq<Part>, f: Fields, n: nat) returns (left: seq<Part>)
    requires Stage(parts, a, f, n, 0, 3) && f.counter
    ensures Source(left) == Raised(Source(a), f, n).0
    ensures Stage(parts, left, f, n, 0, 5)
    ensures !Captured(parts, f, n, 0) ==> Raised(Source(a), f, n).1 == n + Count(parts, '+')
  {
    var b := SerialAfter(parts, a, f, n);
    left := PlusAfter(parts, b, f, n);
  }

  lemma SerialAfter(parts: seq<Part>, a: seq<Part>, f: Fields, n: nat) returns (left: seq<Part>)
    requires Stage(parts, a, f, n, 0, 3) && f.counter
    ensures Source(left) == SerialPass(Source(a), f, n)
    ensures Stage(parts, left, f, n, 0, 4)
  {
    SerialIsPlain(n, f);
    PlainIsTame(Serial(n, f), '#', '#');
    left := PassAfter(parts, a, '#', '#', Serial(n, f), f, n, 3);
  }

  lemma PlusAfter(parts: seq<Part>, a: seq<Part>, f: Fields, n: nat) returns (left: seq<Part>)
    requires Stage(parts, a, f, n, 0, 4) && f.counter
    ensures Source(left) == Pass(Source(a), '+', '+', "")
    ensures Stage(parts, left, f, n, 0, 5)
    ensures !Captured(parts, f, n, 0) ==> Hits(Source(a), '+', '+', "") == Count(parts, '+')
  {
    left := PassAfter(parts, a, '+', '+', "", f, n, 4);
  }

  /** The serial number the loops should leave. */
  function NumberAfter(parts: seq<Part>, f: Fields, n: nat): nat {
    if f.counter then Lowered(n + Count(parts, '+'), Count(parts, '-')) else n
  }

  /** The three serial number loops together. */
  lemma SerialsAfter(parts: seq<Part>, a: seq<Part>, f: Fields, n: nat) returns (left: seq<Part>)
    requires Stage(parts, a, f, n, 0, 3) && f.counter
    ensures Source(left) == SerialPasses(Source(a), f, n).0
    ensures Stage(parts, left, f, n, 0, 6)
    ensures !Captured(parts, f, n, 0) ==> SerialPasses(Source(a), f, n).1 == NumberAfter(parts, f, n)
  {
    var b := RaisedAfter(parts, a, f, n);
    left := MinusAfter(parts, b, f, n, Raised(Source(a), f, n).1);
  }

  lemma MinusAfter(parts: seq<Part>, a: seq<Part>, f: Fields, n: nat, m: nat) returns (left: seq<Part>)
    requires Stage(parts, a, f, n, 0, 5) && f.counter
    ensures Source(left) == LoweredPass(Source(a), m).0
    ensures Stage(parts, left, f, n, 0, 6)
    ensures !Captured(parts, f, n, 0) ==> LoweredPass(Source(a), m).1 == Lowered(m, Count(parts, '-'))
  {
    left := PassAfter(parts, a, '-', '-', "", f, n, 5);
  }

  /** Without a serial number there is nothing for its loops. */
  lemma NoSerials(parts: seq<Part>, a: seq<Part>, f: Fields, n: nat)
    requires Stage(parts, a, f, n, 0, 3) && !f.counter
    ensures Stage(parts, a, f, n, 0, 6)
  {
    NothingAfter(parts, a, f, n, 3);
    NothingAfter(parts, a, f, n, 4);
    NothingAfter(parts, a, f, n, 5);
  }

  /** All loops of any sender. */
  lemma AllStages(parts: seq<Part>, f: Fields, n: nat) returns (left: seq<Part>)
    requires MacrosFrom(parts, f, 0) && TameFields(f)
    ensures Source(left) == MultiPass(Source(parts), f, n).0
    ensures Stage(parts, left, f, n, 0, 6)
    ensures !Captured(parts, f, n, 0) ==>
      MultiPass(Source(parts), f, n).1 == NumberAfter(parts, f, n)
  {
    var a := FieldStages(parts, f, n);
    if f.counter {
      left := SerialsAfter(parts, a, f, n);
    } else {
      NoSerials(parts, a, f, n);
      left := a;
    }
  }

  // ---- The loops are the substitution ----------------------------------------------------------

  /** After the last loop no macro is left. */
  lemma {:induction false} OnlyLiterals(parts: seq<Part>, f: Fields, n: nat)
    requires MacrosFrom(parts, f, 6)
    ensures Render(parts, f, n) == Source(parts)
    ensures Tildes(Source(parts)) == LooseTildes(parts)
  {
    if parts != [] {
      assert parts[0] in parts;
      OnlyLiterals(parts[1..], f, n);
      assert Source(parts) == [parts[0].c] + Source(parts[1..]);
      assert Source(parts)[1..] == Source(parts[1..]);
    }
  }

  /** And nothing is captured any more. */
  lemma {:induction false} NoneCaptured(parts: seq<Part>, f: Fields, n: nat)
    requires MacrosFrom(parts, f, 6)
    ensures !Captured(parts, f, n, 6)
  {
    if parts != [] {
      NoneCaptured(parts[1..], f, n);
      assert parts[0] in parts && parts == [parts[0]] + parts[1..];
      LitInFront(parts[0].c, parts[1..], f, n, 6);
      if |parts| > 1 { assert parts[1] in parts; }
    }
  }

  /** The tildes of the substitution are the literal ones. */
  lemma {:induction false} TildesOfRender(parts: seq<Part>, f: Fields, n: nat)
    requires PlainFields(f) && MacrosFrom(parts, f, 0)
    ensures Tildes(Render(parts, f, n)) == LooseTildes(parts)
  {
    if parts != [] {
      assert parts[0] in parts;
      TildesOfRender(parts[1..], f, n);
      TildesAppend(RenderOne(parts[0], f, n), Render(parts[1..], f, n));
      SerialIsPlain(n, f);
      match parts[0]
      case Lit(c) => assert [c][1..] == "";
      case Macro(c) => NoTildes(RenderOne(parts[0], f, n));
    }
  }

  /** The loops, one after another, are the single substitution if no tilde is captured,
      neither a literal one nor one in a value; with fields that hold no tilde, exactly
      then.  Every serial number is then the one from before any `~+` or `~-`, and the
      number left is raised by every `~+` and lowered by every `~-`, but not below zero. */
  lemma LoopsAreSubstitution(s: string, f: Fields, n: nat)
    requires TameFields(f)
    ensures !Captured(Parts(s, f), f, n, 0) ==> MultiPass(s, f, n) == (Expand(s, f, n), NumberAfter(Parts(s, f), f, n))
    ensures PlainFields(f) ==> (MultiPass(s, f, n).0 == Expand(s, f, n) <==> !Captured(Parts(s, f), f, n, 0))
  {
    SourceOfParts(s, f);
    LoopsOnParts(s, Parts(s, f), f, n);
  }

  lemma LoopsOnParts(s: string, parts: seq<Part>, f: Fields, n: nat)
    requires TameFields(f) && MacrosFrom(parts, f, 0) && Source(parts) == s
    ensures !Captured(parts, f, n, 0) ==> MultiPass(s, f, n) == (Render(parts, f, n), NumberAfter(parts, f, n))
    ensures PlainFields(f) ==> (MultiPass(s, f, n).0 == Render(parts, f, n) <==> !Captured(parts, f, n, 0))
  {
    var left := AllStages(parts, f, n);
    LastStage(parts, left, f, n);
  }

  /** What the last loop leaves is the substitution, unless a tilde was captured; with
      plain fields it then has fewer tildes. */
  lemma LastStage(parts: seq<Part>, left: seq<Part>, f: Fields, n: nat)
    requires MacrosFrom(parts, f, 0) && Stage(parts, left, f, n, 0, 6)
    ensures !Captured(parts, f, n, 0) ==> Source(left) == Render(parts, f, n)
    ensures PlainFields(f) ==> (Source(left) == Render(parts, f, n) <==> !Captured(parts, f, n, 0))
  {
    OnlyLiterals(left, f, n);
    NoneCaptured(left, f, n);
    if PlainFields(f) { TildesOfRender(parts, f, n); }
  }

  /** No tilde stands right in front of a macro. */
  predicate Safe(s: string, f: Fields) {
    forall i :: 0 <= i < |s| && s[i] == '~' ==> !MacroAt(s, i + 1, f)
  }

  lemma {:induction false} PlainUncaptured(v: string, behind: bool, f: Fields, k: nat)
    requires '~' !in v
    ensures !TextCaptured(v, behind, f, k)
  {
    if v != "" { PlainUncaptured(v[1..], behind, f, k); }
  }

  /** In such a text nothing is captured, whatever the plain values and the number are. */
  lemma {:induction false} SafeIsUncaptured(s: string, f: Fields, n: nat)
    requires PlainFields(f) && Safe(s, f)
    ensures !Captured(Parts(s, f), f, n, 0)
    decreases |s|
  {
    if s != "" {
      var t := if MacroAt(s, 0, f) then s[2..] else s[1..];
      SafeTail(s, f, |s| - |t|);
      SafeIsUncaptured(t, f, n);
      if MacroAt(s, 0, f) {
        var j := From(Macro(s[1]), 0);
        var v := RenderOne(Macro(s[1]), f, n);
        PlainMacro(s[1], v, f, n);
        PlainUncaptured(v, Completes(Parts(t, f), f, n, j), f, j);
        assert Parts(s, f) == [Macro(s[1])] + Parts(t, f) && Parts(s, f)[1..] == Parts(t, f);
      } else {
        LitInFront(s[0], Parts(t, f), f, n, 0);
        if s[0] == '~' && t != "" {
          assert !MacroAt(s, 1, f);
          assert t[0] == s[1] && (|t| > 1 ==> t[1] == s[2]);
        }
      }
    }
  }

  lemma SafeTail(s: string, f: Fields, d: nat)
    requires Safe(s, f) && d <= |s|
    ensures Safe(s[d..], f)
  {
    forall i | 0 <= i < |s| - d && s[d..][i] == '~' ensures !MacroAt(s[d..], i + 1, f) {
      assert s[d + i] == '~' && !MacroAt(s, d + i + 1, f);
    }
  }

  /** A text without `~~` is safe. */
  lemma NoDoubleTilde(s: string, f: Fields, n: nat)
    requires PlainFields(f) && Absent(s, '~')
    ensures MultiPass(s, f, n) == (Expand(s, f, n), NumberAfter(Parts(s, f), f, n))
  {
    assert Safe(s, f);
    PlainFieldsAreTame(f);
    SafeIsUncaptured(s, f, n);
    LoopsAreSubstitution(s, f, n);
  }

  lemma OnePart(c: char, f: Fields)
    requires c != '~'
    ensures Parts(['~', c], f) == if Value(c, f, 0).Some? then [Macro(c)] else [Lit('~'), Lit(c)]
  {
    var s := ['~', c];
    assert s[1..] == [c] && s[2..] == "" && [c][1..] == "";
    assert Parts([c], f) == [Lit(c)] + Parts("", f) == [Lit(c)];
    assert [Lit('~')] + [Lit(c)] == [Lit('~'), Lit(c)];
  }

  lemma OneMacro(c: char, f: Fields, n: nat)
    requires PlainFields(f) && c != '~'
    ensures MultiPass(['~', c], f, n).0 == match Value(c, f, n) case Some(v) => v case None => ['~', c]
    ensures MultiPass(['~', c], f, n).1
         == if !f.counter then n else if c == '+' then n + 1 else if c == '-' then Lowered(n, 1) else n
  {
    NoDoubleTilde(['~', c], f, n);
    OnePart(c, f);
    if Value(c, f, n).Some? {
      MacroAlone(c, f, n, '+');
      MacroAlone(c, f, n, '-');
    } else {
      TwoLiterals(c, f, n, '+');
      TwoLiterals(c, f, n, '-');
    }
  }

  lemma TwoLiterals(c: char, f: Fields, n: nat, d: char)
    ensures var lits := [Lit('~'), Lit(c)]; Render(lits, f, n) == ['~', c] && Count(lits, d) == 0
  {
    var lits := [Lit('~'), Lit(c)];
    assert lits[1..] == [Lit(c)] && [Lit(c)][1..] == [];
    assert Render([Lit(c)], f, n) == [c] + "" && Count([Lit(c)], d) == 0;
  }

  lemma MacroAlone(c: char, f: Fields, n: nat, d: char)
    ensures Render([Macro(c)], f, n) == RenderOne(Macro(c), f, n) && Count([Macro(c)], d) == if c == d then 1 else 0
  {
    assert [Macro(c)][1..] == [];
  }

  /** What each macro stands for: the operator's fields in either case, and the serial number,
      which `~+` raises and `~-` lowers, but not below zero. */
  lemma MacroMeanings(c: char, f: Fields, n: nat)
    requires PlainFields(f) && c != '~'
    ensures MultiPass(['~', c], f, n) ==
      if (c == 'C' || c == 'c') && f.call.Some? then (f.call.value, n)
      else if (c == 'N' || c == 'n') && f.name.Some? then (f.name.value, n)
      else if (c == 'R' || c == 'r') && f.rst.Some? then (f.rst.value, n)
      else if c == '#' && f.counter then (Serial(n, f), n)
      else if c == '+' && f.counter then ("", n + 1)
      else if c == '-' && f.counter then ("", if n == 0 then 0 else n - 1)
      else (['~', c], n)
  {
    OneMacro(c, f, n);
  }

  /** A captured tilde: it joins the value behind it into a macro of a later loop. */
  lemma DoubleTildeDiffers()
    ensures var f := Fields(Some("N"), Some("x"), None, false, false, false);
      && MultiPass("~~C", f, 0).0 == "x" && Expand("~~C", f, 0) == "~N"
  {
  }

  /** With tildes in the fields a captured one need not show: here the value of `~C` becomes
      `~R` and then `~N` again, which nobody looks for any more. */
  lemma CapturedYetEqual()
    ensures var f := Fields(Some("~N"), Some("~R"), Some("~N"), false, false, false);
      && TameFields(f) && Captured(Parts("~C", f), f, 0, 0)
      && MultiPass("~C", f, 0).0 == "~N" == Expand("~C", f, 0)
  {
    var f := Fields(Some("~N"), Some("~R"), Some("~N"), false, false, false);
    OnePart('C', f);
    MacroAlone('C', f, 0, 'C');
    OneTurn('C', 'C', 'c', "~N");
    OneTurn('N', 'N', 'n', "~R");
    OneTurn('R', 'R', 'r', "~N");
    TildeCaptured(Macro('C'), 'N', f);
  }

  /** A loop that replaces its own macro by a value without one. */
  lemma OneTurn(c: char, upper: char, lower: char, v: string)
    requires Tame(v, upper, lower) && c == upper != '~' && lower != '~'
    ensures Pass(['~', c], upper, lower, v) == v
  {
    var s := ['~', c];
    assert Find(s, upper, 0) == Some(0) && Replace(s, 0, v) == v;
    InertIsAbsent(v, upper, lower);
    HitIsNotInert(v, upper, lower);
    OneLess(s, 0, upper, lower, v);
  }

  lemma TildeCaptured(part: Part, d: char, f: Fields)
    requires part.Macro? && Rank(part.c) == 0 && RenderOne(part, f, 0) == ['~', d] && Takes(d, f, 0)
    ensures Captured([part], f, 0, 0)
  {
  }
}
