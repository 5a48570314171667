/** The macro expander `add_cwio` of `src/cwio/cwio.cxx`: one find-and-replace loop for
    each macro, when such a loop ends, and the procedure. */
module Macros {
  import opened Common
  import L = Loops

  /** The operator's entry fields, absent while their dialog does not exist, and the
      serial number settings. */
  datatype Fields = Fields(call: Option<string>, name: Option<string>, rst: Option<string>,
                           counter: bool, leadingZeros: bool, cut: bool)

  // ---- Serial numbers ------------------------------------------------------

  predicate AllDigits(s: string) { forall i :: 0 <= i < |s| ==> '0' <= s[i] <= '9' }

  function Digits(n: nat): (s: string)
    ensures s != "" && AllDigits(s)
  {
    var last := [('0' as int + n % 10) as char];
    if n < 10 then last else Digits(n / 10) + last
  }

  function Padded(s: string, width: nat): string
    decreases width - |s|
  {
    if |s| >= width then s else Padded("0" + s, width)
  }

  /** What fits sznum: at most nine characters. */
  function Fitted(s: string): string { if |s| > 9 then s[..9] else s }

  function CutDigit(c: char): char { if c == '0' then 'T' else if c == '9' then 'N' else c }

  /** Cut numbers: every digit but the first. */
  function CutAll(s: string): (t: string)
    ensures |t| == |s| && forall i :: 0 <= i < |s| ==> t[i] == if i == 0 then s[i] else CutDigit(s[i])
  {
    seq(|s|, i requires 0 <= i < |s| => if i == 0 then s[i] else CutDigit(s[i]))
  }

  /** The text a serial number macro stands for. */
  function Serial(n: nat, f: Fields): string {
    var s := Fitted(if f.leadingZeros then Padded(Digits(n), 4) else Digits(n));
    if f.cut then CutAll(s) else s
  }

  lemma {:induction false} PaddedDigits(s: string, width: nat)
    requires AllDigits(s)
    ensures AllDigits(Padded(s, width))
    decreases width - |s|
  {
    if |s| < width { PaddedDigits("0" + s, width); }
  }

  lemma SerialIsPlain(n: nat, f: Fields)
    ensures '~' !in Serial(n, f)
  {
    PaddedDigits(Digits(n), 4);
    var d := if f.leadingZeros then Padded(Digits(n), 4) else Digits(n);
    var s := Fitted(d);
    assert forall i :: 0 <= i < |s| ==> s[i] == d[i];
    assert forall i :: 0 <= i < |s| ==> CutAll(s)[i] != '~';
  }

  // ---- What a serial number reads as ----------------------------------------------

  /** A decimal number, read from the left. */
  function Read(s: string, sofar: nat): nat
    requires AllDigits(s)
  {
    if s == "" then sofar else Read(s[1..], 10 * sofar + (s[0] as int - '0' as int))
  }

  lemma {:induction false} ReadAppend(a: string, b: string, sofar: nat)
    requires AllDigits(a) && AllDigits(b)
    ensures AllDigits(a + b) && Read(a + b, sofar) == Read(b, Read(a, sofar))
  {
    Front(a, b);
    if a != "" { ReadAppend(a[1..], b, 10 * sofar + (a[0] as int - '0' as int)); }
  }

  /** The digits of a number read as that number, and do not begin with a zero of their own. */
  lemma {:induction false} DigitsRead(n: nat)
    ensures Read(Digits(n), 0) == n
    ensures |Digits(n)| > 1 ==> Digits(n)[0] != '0'
    ensures n > 0 ==> Digits(n)[0] != '0'
  {
    var last := [('0' as int + n % 10) as char];
    assert last[1..] == "";
    if n >= 10 {
      DigitsRead(n / 10);
      ReadAppend(Digits(n / 10), last, 0);
    }
  }

  lemma {:induction false} DigitsFit(n: nat, bound: nat, k: nat)
    requires k > 0 && n < bound && bound == Power(k)
    ensures |Digits(n)| <= k
    decreases k
  {
    if n >= 10 {
      assert bound == 10 * Power(k - 1);
      DigitsFit(n / 10, Power(k - 1), k - 1);
    }
  }

  function Power(k: nat): nat { if k == 0 then 1 else 10 * Power(k - 1) }

  /** Zeros in front make it long enough and do not change what it reads as. */
  lemma {:induction false} PaddedRead(s: string, width: nat)
    requires AllDigits(s)
    ensures AllDigits(Padded(s, width)) && Read(Padded(s, width), 0) == Read(s, 0)
    ensures |Padded(s, width)| == if |s| < width then width else |s|
    ensures |s| >= width ==> Padded(s, width) == s
    decreases width - |s|
  {
    if |s| < width {
      ReadAppend("0", s, 0);
      assert "0"[1..] == "";
      PaddedRead("0" + s, width);
    }
  }

  /** A serial number of up to nine digits reads as that number; without leading zeros it has
      none of its own, with them it has four digits, or more and none. */
  lemma SerialReads(n: nat, f: Fields)
    requires n < 1000000000 && !f.cut
    ensures AllDigits(Serial(n, f)) && Read(Serial(n, f), 0) == n
    ensures !f.leadingZeros && |Serial(n, f)| > 1 ==> Serial(n, f)[0] != '0'
    ensures f.leadingZeros ==> |Serial(n, f)| >= 4 && (|Serial(n, f)| > 4 ==> Serial(n, f)[0] != '0')
  {
    DigitsRead(n);
    assert Power(9) == 1000000000 by { PowerNine(); }
    DigitsFit(n, 1000000000, 9);
    PaddedRead(Digits(n), 4);
  }

  lemma PowerNine()
    ensures Power(9) == 1000000000
  {
    assert Power(3) == 10 * (10 * (10 * Power(0)));
    assert Power(6) == 10 * (10 * (10 * Power(3)));
    assert Power(9) == 10 * (10 * (10 * Power(6)));
  }

  /** A longer one is cut off behind its ninth digit. */
  lemma LongSerial(n: nat, f: Fields)
    requires |Digits(n)| > 9 && !f.cut
    ensures |Serial(n, f)| == 9 && Serial(n, f) <= Digits(n) && Read(Digits(n), 0) == n
  {
    DigitsRead(n);
    PaddedRead(Digits(n), 4);
  }

  /** Cut numbers read back: T for 0 and N for 9. */
  function Uncut(s: string): string {
    if s == "" then ""
    else [if s[0] == 'T' then '0' else if s[0] == 'N' then '9' else s[0]] + Uncut(s[1..])
  }

  lemma {:induction false} UncutAt(s: string, t: string)
    requires |s| == |t| && AllDigits(s)
    requires forall i :: 0 <= i < |s| ==> t[i] == s[i] || (s[i] == '0' && t[i] == 'T') || (s[i] == '9' && t[i] == 'N')
    ensures Uncut(t) == s
  {
    if s != "" {
      assert s[0] in s;
      UncutAt(s[1..], t[1..]);
      assert s == [s[0]] + s[1..];
    }
  }

  /** Cut numbers stand for the same digits; the first is left alone, and no 0 or 9 is left
      behind it. */
  lemma CutReadsBack(n: nat, f: Fields)
    requires f.cut
    ensures var (cut, whole) := (Serial(n, f), Serial(n, f.(cut := false)));
      && Uncut(cut) == whole && |cut| == |whole| > 0 && cut[0] == whole[0]
      && forall i :: 1 <= i < |cut| ==> cut[i] != '0' && cut[i] != '9'
  {
    var whole := Serial(n, f.(cut := false));
    PaddedRead(Digits(n), 4);
    var d := if f.leadingZeros then Padded(Digits(n), 4) else Digits(n);
    assert forall i :: 0 <= i < |whole| ==> whole[i] == d[i];
    UncutAt(whole, CutAll(whole));
  }

  // ---- The find-and-replace loops ------------------------------------------------

  /** std::string::find of `~c`, from `i` on; None for npos. */
  function Find(s: string, c: char, i: nat): (r: Option<nat>)
    requires i <= |s|
    ensures r.Some? ==> i <= r.value && r.value + 1 < |s| && s[r.value] == '~' && s[r.value + 1] == c
    decreases |s| - i
  {
    if i + 1 >= |s| then None
    else if s[i] == '~' && s[i + 1] == c then Some(i)
    else Find(s, c, i + 1)
  }

  /** The condition of one loop: the upper-case macro first, then the lower-case one. */
  function Hit(s: string, upper: char, lower: char): Option<nat> {
    if Find(s, upper, 0).Some? then Find(s, upper, 0) else Find(s, lower, 0)
  }

  function Replace(s: string, p: nat, v: string): string
    requires p + 2 <= |s|
  {
    s[..p] + v + s[p + 2..]
  }

  predicate Absent(s: string, c: char) {
    forall i :: 0 <= i < |s| - 1 ==> !(s[i] == '~' && s[i + 1] == c)
  }

  /** It is the first one. */
  lemma {:induction false} FindsFirst(s: string, c: char, i: nat)
    requires i <= |s|
    ensures match Find(s, c, i)
      case Some(p) => forall k :: i <= k < p ==> !(s[k] == '~' && s[k + 1] == c)
      case None => forall k :: i <= k < |s| - 1 ==> !(s[k] == '~' && s[k + 1] == c)
    decreases |s| - i
  {
    if i + 1 < |s| { FindsFirst(s, c, i + 1); }
  }

  // ---- When a loop ends -----------------------------------------------------------

  predicate IsOwn(c: char, upper: char, lower: char) { c == upper || c == lower }

  /** What the loop for `upper` and `lower` can tell apart. */
  function Marks(s: string, upper: char, lower: char): (m: seq<L.Mark>)
    ensures |m| == |s| && forall i :: 0 <= i < |s| ==> m[i] == MarkOf(s[i], upper, lower)
  {
    seq(|s|, i requires 0 <= i < |s| => MarkOf(s[i], upper, lower))
  }

  function MarkOf(c: char, upper: char, lower: char): L.Mark {
    if c == '~' then L.Tilde else if IsOwn(c, upper, lower) then L.Own else L.Other
  }

  /** The value does not contain the loop's own macros, and does not both begin with two of
      their letters and end with two tildes. */
  predicate Tame(v: string, upper: char, lower: char) {
    && Absent(v, upper) && Absent(v, lower)
    && !(|v| >= 2 && IsOwn(v[0], upper, lower) && IsOwn(v[1], upper, lower)
         && v[|v| - 2] == '~' && v[|v| - 1] == '~')
  }

  lemma InertIsAbsent(s: string, upper: char, lower: char)
    requires upper != '~' && lower != '~'
    ensures L.Inert(Marks(s, upper, lower)) <==> Absent(s, upper) && Absent(s, lower)
  {
    var m := Marks(s, upper, lower);
    forall i: nat | i < |s| - 1 ensures L.HitAt(m, i) <==> s[i] == '~' && IsOwn(s[i + 1], upper, lower) {
      assert m[i] == MarkOf(s[i], upper, lower) && m[i + 1] == MarkOf(s[i + 1], upper, lower);
    }
    if L.Inert(m) {
      forall i | 0 <= i < |s| - 1 ensures !(s[i] == '~' && IsOwn(s[i + 1], upper, lower)) {
        assert !L.HitAt(m, i);
      }
    }
  }

  lemma TameMarks(v: string, upper: char, lower: char)
    requires upper != '~' && lower != '~'
    ensures L.Tame(Marks(v, upper, lower)) <==> Tame(v, upper, lower)
  {
    InertIsAbsent(v, upper, lower);
  }

  lemma PlainIsTame(v: string, upper: char, lower: char)
    requires '~' !in v
    ensures Tame(v, upper, lower)
  {
    if |v| > 0 { assert v[|v| - 1] in v; }
  }

  /** The loop's search fails exactly when no macro of its own is left. */
  lemma HitIsNotInert(s: string, upper: char, lower: char)
    requires upper != '~' && lower != '~'
    ensures Hit(s, upper, lower).None? <==> L.Inert(Marks(s, upper, lower))
  {
    InertIsAbsent(s, upper, lower);
    if Find(s, upper, 0).None? { FindsFirst(s, upper, 0); }
    if Find(s, lower, 0).None? { FindsFirst(s, lower, 0); }
  }

  lemma ReplaceMarks(s: string, p: nat, v: string, upper: char, lower: char)
    requires p + 2 <= |s|
    ensures Marks(Replace(s, p, v), upper, lower) == L.Swapped(Marks(s, upper, lower), p, Marks(v, upper, lower))
  {
  }

  /** How many replacements a tame value leaves to be made. */
  function Remaining(s: string, upper: char, lower: char, v: string): nat {
    L.Left(Marks(s, upper, lower), Marks(v, upper, lower))
  }

  /** Every replacement by a tame value leaves one less to be made. */
  lemma OneLess(s: string, p: nat, upper: char, lower: char, v: string)
    requires Tame(v, upper, lower) && upper != '~' && lower != '~'
    requires p + 1 < |s| && s[p] == '~' && IsOwn(s[p + 1], upper, lower)
    ensures Remaining(s, upper, lower, v) == Remaining(Replace(s, p, v), upper, lower, v) + 1
  {
    TameMarks(v, upper, lower);
    ReplaceMarks(s, p, v, upper, lower);
    L.OneLess(Marks(s, upper, lower), p, Marks(v, upper, lower));
  }

  /** The text after so many turns of the loop. */
  function Iterated(s: string, upper: char, lower: char, v: string, n: nat): string
    decreases n
  {
    if n == 0 then s
    else match Hit(s, upper, lower)
      case None => s
      case Some(p) => Iterated(Replace(s, p, v), upper, lower, v, n - 1)
  }

  /** After some number of turns the loop finds nothing. */
  ghost predicate Ends(s: string, upper: char, lower: char, v: string) {
    exists n: nat :: Hit(Iterated(s, upper, lower, v, n), upper, lower).None?
  }

  /** When the search fails, none is left. */
  lemma NoneRemain(s: string, upper: char, lower: char, v: string)
    requires upper != '~' && lower != '~' && Hit(s, upper, lower).None?
    ensures Remaining(s, upper, lower, v) == 0
  {
    HitIsNotInert(s, upper, lower);
    L.NoneLeft(Marks(s, upper, lower), Marks(v, upper, lower));
  }

  /** What holds of every turn but the last is carried over to one more replacement. */
  lemma NotSooner(s: string, upper: char, lower: char, v: string, p: nat)
    requires Hit(s, upper, lower) == Some(p)
    requires upper != '~' && lower != '~' && Tame(v, upper, lower)
    requires forall k: nat :: k < Remaining(Replace(s, p, v), upper, lower, v) ==>
      Hit(Iterated(Replace(s, p, v), upper, lower, v, k), upper, lower).Some?
    ensures forall k: nat :: k < Remaining(s, upper, lower, v) ==>
      Hit(Iterated(s, upper, lower, v, k), upper, lower).Some?
  {
    var t := Replace(s, p, v);
    OneLess(s, p, upper, lower, v);
    forall k: nat | k < Remaining(s, upper, lower, v)
      ensures Hit(Iterated(s, upper, lower, v, k), upper, lower).Some?
    {
      if k > 0 { assert Iterated(s, upper, lower, v, k) == Iterated(t, upper, lower, v, k - 1); }
    }
  }

  /** With a tame value the loop ends after exactly as many turns as replacements remain. */
  lemma {:induction false} TameEnds(s: string, upper: char, lower: char, v: string)
    requires Tame(v, upper, lower) && upper != '~' && lower != '~'
    ensures var n := Remaining(s, upper, lower, v);
      && Hit(Iterated(s, upper, lower, v, n), upper, lower).None?
      && forall k: nat :: k < n ==> Hit(Iterated(s, upper, lower, v, k), upper, lower).Some?
    decreases Remaining(s, upper, lower, v)
  {
    match Hit(s, upper, lower)
    case None =>
      NoneRemain(s, upper, lower, v);
    case Some(p) =>
      OneLess(s, p, upper, lower, v);
      TameEnds(Replace(s, p, v), upper, lower, v);
      NotSooner(s, upper, lower, v, p);
  }

  /** A text on which the loop goes on for ever: the value brings its own macro with it, or
      the text keeps a tilde in front of two own letters or two in front of one. */
  predicate Endless(s: string, upper: char, lower: char, v: string) {
    var (m, w) := (Marks(s, upper, lower), Marks(v, upper, lower));
    if L.Inert(w) then L.Fed(m) && L.BeginsDouble(w) && L.EndsDouble(w) else !L.Inert(m)
  }

  lemma EndlessStays(s: string, upper: char, lower: char, v: string)
    requires upper != '~' && lower != '~' && Endless(s, upper, lower, v)
    ensures var r := Hit(s, upper, lower); r.Some? && Endless(Replace(s, r.value, v), upper, lower, v)
  {
    var m, w := Marks(s, upper, lower), Marks(v, upper, lower);
    HitIsNotInert(s, upper, lower);
    if L.Inert(w) { L.FedIsHit(m); }
    var p := Hit(s, upper, lower).value;
    ReplaceMarks(s, p, v, upper, lower);
    if L.Inert(w) { L.FedStays(m, p, w); } else { L.ValueIsHit(m, p, w); }
  }

  lemma {:induction false} NeverEnds(s: string, upper: char, lower: char, v: string, n: nat)
    requires upper != '~' && lower != '~' && Endless(s, upper, lower, v)
    ensures Hit(Iterated(s, upper, lower, v, n), upper, lower).Some?
    decreases n
  {
    EndlessStays(s, upper, lower, v);
    if n > 0 { NeverEnds(Replace(s, Hit(s, upper, lower).value, v), upper, lower, v, n - 1); }
  }

  /** `~U` is such a text, or else `~~U`. */
  lemma WildHasEndless(upper: char, lower: char, v: string) returns (s: string)
    requires upper != '~' && lower != '~' && !Tame(v, upper, lower)
    ensures Endless(s, upper, lower, v) && s in {['~', upper], ['~', '~', upper]}
  {
    TameMarks(v, upper, lower);
    if L.Inert(Marks(v, upper, lower)) {
      s := ['~', '~', upper];
      assert L.FedAt(Marks(s, upper, lower), 0);
    } else {
      s := ['~', upper];
      assert L.HitAt(Marks(s, upper, lower), 0);
    }
  }

  /** The loop ends on every text exactly for the tame values. */
  lemma LoopEnds(upper: char, lower: char, v: string)
    requires upper != '~' && lower != '~'
    ensures (forall s :: Ends(s, upper, lower, v)) <==> Tame(v, upper, lower)
  {
    if Tame(v, upper, lower) {
      forall s ensures Ends(s, upper, lower, v) { TameEnds(s, upper, lower, v); }
    } else {
      var s := WildHasEndless(upper, lower, v);
      forall n: nat ensures Hit(Iterated(s, upper, lower, v, n), upper, lower).Some? {
        NeverEnds(s, upper, lower, v, n);
      }
      assert !Ends(s, upper, lower, v);
    }
  }

  // ---- The loops ------------------------------------------------------------------------

  /** One loop, run to its end. */
  function Pass(s: string, upper: char, lower: char, v: string): string
    requires Tame(v, upper, lower) && upper != '~' && lower != '~'
    decreases Remaining(s, upper, lower, v)
  {
    match Hit(s, upper, lower)
    case None => s
    case Some(p) => OneLess(s, p, upper, lower, v); Pass(Replace(s, p, v), upper, lower, v)
  }

  /** How often a loop replaces something. */
  function Hits(s: string, upper: char, lower: char, v: string): nat
    requires Tame(v, upper, lower) && upper != '~' && lower != '~'
    decreases Remaining(s, upper, lower, v)
  {
    match Hit(s, upper, lower)
    case None => 0
    case Some(p) => OneLess(s, p, upper, lower, v); 1 + Hits(Replace(s, p, v), upper, lower, v)
  }

  lemma {:induction false} HitsRemain(s: string, upper: char, lower: char, v: string)
    requires Tame(v, upper, lower) && upper != '~' && lower != '~'
    ensures Hits(s, upper, lower, v) == Remaining(s, upper, lower, v)
    decreases Remaining(s, upper, lower, v)
  {
    match Hit(s, upper, lower)
    case None => NoneRemain(s, upper, lower, v);
    case Some(p) =>
      OneLess(s, p, upper, lower, v);
      HitsRemain(Replace(s, p, v), upper, lower, v);
  }

  /** The loop run to its end is the loop iterated until it ends. */
  lemma {:induction false} PassIsIterated(s: string, upper: char, lower: char, v: string)
    requires Tame(v, upper, lower) && upper != '~' && lower != '~'
    ensures Pass(s, upper, lower, v) == Iterated(s, upper, lower, v, Remaining(s, upper, lower, v))
    decreases Remaining(s, upper, lower, v)
  {
    match Hit(s, upper, lower)
    case None => NoneRemain(s, upper, lower, v);
    case Some(p) =>
      OneLess(s, p, upper, lower, v);
      PassIsIterated(Replace(s, p, v), upper, lower, v);
  }

  predicate TameField(v: Option<string>, upper: char, lower: char) { v.Some? ==> Tame(v.value, upper, lower) }

  /** Fields with which every loop ends on every text. */
  predicate TameFields(f: Fields) {
    TameField(f.call, 'C', 'c') && TameField(f.name, 'N', 'n') && TameField(f.rst, 'R', 'r')
  }

  /** `t` is where the loop of a field takes `s`. */
  ghost predicate Settles(s: string, upper: char, lower: char, v: Option<string>, t: string) {
    match v
    case None => t == s
    case Some(w) => Hit(t, upper, lower).None? && exists n: nat :: Iterated(s, upper, lower, w, n) == t
  }

  /** The three loops end on a text, one after another. */
  ghost predicate AllEnd(s: string, f: Fields) {
    exists a, b, c ::
      Settles(s, 'C', 'c', f.call, a) && Settles(a, 'N', 'n', f.name, b) && Settles(b, 'R', 'r', f.rst, c)
  }

  lemma TameSettles(s: string, upper: char, lower: char, v: Option<string>) returns (t: string)
    requires TameField(v, upper, lower) && upper != '~' && lower != '~'
    ensures Settles(s, upper, lower, v, t)
  {
    t := s;
    if v.Some? {
      TameEnds(s, upper, lower, v.value);
      t := Iterated(s, upper, lower, v.value, Remaining(s, upper, lower, v.value));
    }
  }

  lemma NotFoundSettles(s: string, upper: char, lower: char, v: Option<string>, t: string)
    requires Settles(s, upper, lower, v, t) && Hit(s, upper, lower).None?
    ensures t == s
  {
    if v.Some? {
      var n: nat :| Iterated(s, upper, lower, v.value, n) == t;
    }
  }

  lemma WildNeverSettles(upper: char, lower: char, v: Option<string>) returns (s: string)
    requires upper != '~' && lower != '~' && !TameField(v, upper, lower)
    ensures s in {['~', upper], ['~', '~', upper]}
    ensures forall t :: !Settles(s, upper, lower, v, t)
  {
    s := WildHasEndless(upper, lower, v.value);
    forall t ensures !Settles(s, upper, lower, v, t) {
      forall n: nat ensures Hit(Iterated(s, upper, lower, v.value, n), upper, lower).Some? {
        NeverEnds(s, upper, lower, v.value, n);
      }
    }
  }

  /** All field loops end on every text exactly for tame fields. */
  lemma AllLoopsEnd(f: Fields)
    ensures (forall s :: AllEnd(s, f)) <==> TameFields(f)
  {
    if TameFields(f) {
      forall s ensures AllEnd(s, f) {
        var a := TameSettles(s, 'C', 'c', f.call);
        var b := TameSettles(a, 'N', 'n', f.name);
        var c := TameSettles(b, 'R', 'r', f.rst);
      }
    } else {
      var s := StuckText(f);
      assert !AllEnd(s, f);
    }
  }

  /** A text on which one of the loops goes on for ever, and the ones before find nothing. */
  lemma StuckText(f: Fields) returns (s: string)
    requires !TameFields(f)
    ensures !AllEnd(s, f)
  {
    if !TameField(f.call, 'C', 'c') {
      s := WildNeverSettles('C', 'c', f.call);
    } else if !TameField(f.name, 'N', 'n') {
      s := WildNeverSettles('N', 'n', f.name);
      forall a | Settles(s, 'C', 'c', f.call, a) ensures a == s { NotFoundSettles(s, 'C', 'c', f.call, a); }
    } else {
      s := WildNeverSettles('R', 'r', f.rst);
      forall a | Settles(s, 'C', 'c', f.call, a) ensures a == s { NotFoundSettles(s, 'C', 'c', f.call, a); }
      forall b | Settles(s, 'N', 'n', f.name, b) ensures b == s { NotFoundSettles(s, 'N', 'n', f.name, b); }
    }
  }

  predicate PlainValue(v: Option<string>) { v.Some? ==> '~' !in v.value }

  predicate PlainFields(f: Fields) { PlainValue(f.call) && PlainValue(f.name) && PlainValue(f.rst) }

  lemma PlainFieldsAreTame(f: Fields)
    requires PlainFields(f)
    ensures TameFields(f)
  {
    if f.call.Some? { PlainIsTame(f.call.value, 'C', 'c'); }
    if f.name.Some? { PlainIsTame(f.name.value, 'N', 'n'); }
    if f.rst.Some? { PlainIsTame(f.rst.value, 'R', 'r'); }
  }

  function FieldPass(s: string, upper: char, lower: char, v: Option<string>): string
    requires TameField(v, upper, lower) && upper != '~' && lower != '~'
  {
    if v.Some? then Pass(s, upper, lower, v.value) else s
  }

  function FieldPasses(s: string, f: Fields): string
    requires TameFields(f)
  {
    FieldPass(FieldPass(FieldPass(s, 'C', 'c', f.call), 'N', 'n', f.name), 'R', 'r', f.rst)
  }

  function SerialPass(s: string, f: Fields, n: nat): string {
    SerialIsPlain(n, f);
    PlainIsTame(Serial(n, f), '#', '#');
    Pass(s, '#', '#', Serial(n, f))
  }

  function Lowered(n: nat, k: nat): nat { if n >= k then n - k else 0 }

  /** The text after the `~#` and `~+` loops, and the serial number `~+` leaves. */
  function Raised(s: string, f: Fields, n: nat): (string, nat) {
    var s2 := SerialPass(s, f, n);
    (Pass(s2, '+', '+', ""), n + Hits(s2, '+', '+', ""))
  }

  /** The `~-` loop: the number stops at zero. */
  function LoweredPass(s: string, n: nat): (string, nat) {
    (Pass(s, '-', '-', ""), Lowered(n, Hits(s, '-', '-', "")))
  }

  function SerialPasses(s: string, f: Fields, n: nat): (string, nat) {
    LoweredPass(Raised(s, f, n).0, Raised(s, f, n).1)
  }

  /** All loops of `add_cwio`. */
  function MultiPass(s: string, f: Fields, n: nat): (string, nat)
    requires TameFields(f)
  {
    if f.counter then SerialPasses(FieldPasses(s, f), f, n) else (FieldPasses(s, f), n)
  }

  // ---- The procedure ------------------------------------------------------------------

  class Sender {
    var fields: Fields
    var nbr: nat             // cw_log_nbr
    var toSend: string       // txt_to_send
    var button: bool         // btn_cwioSEND
    var running: bool        // cwio_thread_running
    var sending: bool        // cwio_process is SEND

    constructor (fields: Fields, nbr: nat)
      ensures this.fields == fields && this.nbr == nbr && toSend == "" && !button && !running && !sending
    {
      this.fields, this.nbr, toSend := fields, nbr, "";
      button, running, sending := false, false, false;
    }

    method ReplaceAll(txt: string, upper: char, lower: char, v: string) returns (r: string)
      requires Tame(v, upper, lower) && upper != '~' && lower != '~'
      ensures r == Pass(txt, upper, lower, v)
    {
      r := txt;
      while true
        invariant Pass(r, upper, lower, v) == Pass(txt, upper, lower, v)
        decreases Remaining(r, upper, lower, v)
      {
        var p := Find(r, upper, 0);
        if p.None? { p := Find(r, lower, 0); }
        if p.None? { return; }
        OneLess(r, p.value, upper, lower, v);
        r := r[..p.value] + v + r[p.value + 2..];
      }
    }

    method SerialNumber() returns (sznum: string)
      ensures sznum == Serial(nbr, fields)
    {
      sznum := if fields.leadingZeros then Fitted(Padded(Digits(nbr), 4)) else Fitted(Digits(nbr));
      ghost var whole := sznum;
      if fields.cut {
        var i := 1;
        while i < |sznum|
          invariant 1 <= i && |sznum| == |whole|
          invariant forall k :: 0 <= k < |whole| ==>
            sznum[k] == if k == 0 || k >= i then whole[k] else CutDigit(whole[k])
          decreases |sznum| - i
        {
          if sznum[i] == '0' { sznum := sznum[i := 'T']; }
          if sznum[i] == '9' { sznum := sznum[i := 'N']; }
          i := i + 1;
        }
        assert sznum == CutAll(whole);
      }
    }

    /** send_text: asked to send while it is sending, it stops. */
    method SendText(state: bool)
      modifies this`sending
      ensures sending == if running then state && !old(sending) else old(sending)
    {
      if !running { return; }
      if state && !sending { sending := true; } else { sending := false; }
    }

    method AddCwio(text: string)
      requires TameFields(fields)
      modifies this`nbr, this`toSend, this`sending, this`button
      ensures !running ==> nbr == old(nbr) && toSend == old(toSend) && sending == old(sending) && button == old(button)
      ensures running ==>
        var (txt, n) := MultiPass(text, fields, old(nbr));
        var opens := txt != "" && txt[0] == '[';
        && nbr == n && toSend == old(toSend) + txt
        && button == (old(button) || opens) && sending == (old(sending) != opens)
    {
      if !running { return; }
      var txt := ExpandText(text);
      toSend := toSend + txt;
      if txt != "" && txt[0] == '[' {
        SendText(true);
        button := true;
      }
    }

    /** The find-and-replace loops, one after another. */
    method ExpandText(text: string) returns (txt: string)
      requires TameFields(fields)
      modifies this`nbr
      ensures (txt, nbr) == MultiPass(text, fields, old(nbr))
    {
      txt := ReplaceField(text, 'C', 'c', fields.call);
      txt := ReplaceField(txt, 'N', 'n', fields.name);
      txt := ReplaceField(txt, 'R', 'r', fields.rst);
      assert txt == FieldPasses(text, fields);
      if fields.counter { txt := ReplaceNumbers(txt); }
    }

    /** The loop of one field, if its dialog exists. */
    method ReplaceField(text: string, upper: char, lower: char, v: Option<string>) returns (txt: string)
      requires TameField(v, upper, lower) && upper != '~' && lower != '~'
      ensures txt == FieldPass(text, upper, lower, v)
    {
      txt := text;
      if v.Some? { txt := ReplaceAll(txt, upper, lower, v.value); }
    }

    /** The loops of the serial number. */
    method ReplaceNumbers(text: string) returns (txt: string)
      modifies this`nbr
      ensures (txt, nbr) == SerialPasses(text, fields, old(nbr))
    {
      txt := ReplaceSerials(text);
      txt := Raise(txt);
      assert (txt, nbr) == Raised(text, fields, old(nbr));
      txt := Lower(txt);
    }

    /** The `~#` loop: the number is printed anew for every one, but does not change. */
    method ReplaceSerials(text: string) returns (txt: string)
      ensures txt == SerialPass(text, fields, nbr)
    {
      txt := text;
      SerialIsPlain(nbr, fields);
      PlainIsTame(Serial(nbr, fields), '#', '#');
      while true
        invariant Pass(txt, '#', '#', Serial(nbr, fields)) == Pass(text, '#', '#', Serial(nbr, fields))
        decreases Remaining(txt, '#', '#', Serial(nbr, fields))
      {
        var p := Find(txt, '#', 0);
        if p.None? { return; }
        var sznum := SerialNumber();
        OneLess(txt, p.value, '#', '#', sznum);
        txt := txt[..p.value] + sznum + txt[p.value + 2..];
      }
    }

    /** The `~+` loop. */
    method Raise(text: string) returns (txt: string)
      modifies this`nbr
      ensures txt == Pass(text, '+', '+', "") && nbr == old(nbr) + Hits(text, '+', '+', "")
    {
      txt := text;
      while true
        invariant Pass(txt, '+', '+', "") == Pass(text, '+', '+', "")
        invariant nbr + Hits(txt, '+', '+', "") == old(nbr) + Hits(text, '+', '+', "")
        decreases Remaining(txt, '+', '+', "")
      {
        var p := Find(txt, '+', 0);
        if p.None? { return; }
        OneLess(txt, p.value, '+', '+', "");
        txt := txt[..p.value] + "" + txt[p.value + 2..];
        nbr := nbr + 1;
      }
    }

    /** The `~-` loop: the number stops at zero. */
    method Lower(text: string) returns (txt: string)
      modifies this`nbr
      ensures txt == Pass(text, '-', '-', "") && nbr == Lowered(old(nbr), Hits(text, '-', '-', ""))
    {
      txt := text;
      while true
        invariant Pass(txt, '-', '-', "") == Pass(text, '-', '-', "")
        invariant Lowered(nbr, Hits(txt, '-', '-', "")) == Lowered(old(nbr), Hits(text, '-', '-', ""))
        decreases Remaining(txt, '-', '-', "")
      {
        var p := Find(txt, '-', 0);
        if p.None? { return; }
        OneLess(txt, p.value, '-', '-', "");
        txt := txt[..p.value] + "" + txt[p.value + 2..];
        nbr := if nbr - 1 < 0 then 0 else nbr - 1;
      }
    }
  }
}
