/** What the sender puts on the air, seen as a transducer: a load of idles and
    characters goes in, five-bit codes come out.  `Fsk` shows that every
    interleaving of the real sender is this transducer. */
module Transducer {
  import opened Common
  import opened Baudot

  /** An idle is None, a character to send is Some. */
  type Load = seq<Option<char>>

  function ShiftCode(shift: Case): nat { if shift == Letters then LTRS else FIGS }

  function WithShift(e: Code, shift: Case): seq<nat> {
    (if e.shift != shift then [ShiftCode(e.shift)] else []) + [e.bits]
  }

  /** The codes one item costs in the given case. */
  function KeyOne(item: Option<char>, shift: Case): seq<nat> {
    match item
    case None => [LTRS]
    case Some(c) =>
      WithShift(Encode(c, shift), shift)
  }

  function ShiftOne(item: Option<char>, shift: Case): Case {
    match item
    case None => Letters
    case Some(c) => Encode(c, shift).shift
  }

  function Key(load: Load, shift: Case): seq<nat> {
    if load == [] then [] else KeyOne(load[0], shift) + Key(load[1..], ShiftOne(load[0], shift))
  }

  function ShiftAfter(load: Load, shift: Case): Case {
    if load == [] then shift else ShiftAfter(load[1..], ShiftOne(load[0], shift))
  }

  /** The characters of a load, in order. */
  function Chars(load: Load): string {
    if load == [] then ""
    else (if load[0].Some? then [load[0].value] else "") + Chars(load[1..])
  }

  lemma {:induction false} KeyAppend(a: Load, b: Load, shift: Case)
    ensures Key(a + b, shift) == Key(a, shift) + Key(b, ShiftAfter(a, shift))
    ensures ShiftAfter(a + b, shift) == ShiftAfter(b, ShiftAfter(a, shift))
  {
    Front(a, b);
    if a != [] {
      var k := ShiftOne(a[0], shift);
      KeyAppend(a[1..], b, k);
      Assoc(KeyOne(a[0], shift), Key(a[1..], k), Key(b, ShiftAfter(a, shift)));
    }
  }

  lemma {:induction false} CharsAppend(a: Load, b: Load)
    ensures Chars(a + b) == Chars(a) + Chars(b)
  {
    Front(a, b);
    if a != [] {
      CharsAppend(a[1..], b);
      Assoc(if a[0].Some? then [a[0].value] else "", Chars(a[1..]), Chars(b));
    }
  }

  /** The table positions a load asks for. */
  function Positions(load: Load, shift: Case): seq<Code> {
    if load == [] then []
    else (if load[0].Some? then [Encode(load[0].value, shift)] else [])
         + Positions(load[1..], ShiftOne(load[0], shift))
  }

  /** A data code, with its shift code if it needs one: the receiver strikes it in
      the code's own case when it was shifted, else in the receiver's. */
  lemma ReadOne(e: Code, shift: Case, receiver: Case, unshift: bool)
    requires e.bits < 32 && e.bits != LTRS && e.bits != FIGS
    ensures var head := WithShift(e, shift);
      var r := if e.shift != shift then e.shift else receiver;
      && Strikes(head, receiver, unshift) == [Code(r, e.bits)]
      && CaseAfterAll(head, receiver, unshift) == CaseAfter(e.bits, r, unshift)
  {
    var head := WithShift(e, shift);
    var r := if e.shift != shift then e.shift else receiver;
    assert [e.bits][1..] == [];
    assert Strikes([e.bits], r, unshift) == [Code(r, e.bits)] + [];
    assert CaseAfterAll([e.bits], r, unshift) == CaseAfter(e.bits, r, unshift);
    if e.shift != shift {
      assert head[1..] == [e.bits];
      assert CaseAfter(head[0], receiver, unshift) == r;
    }
  }

  lemma ReadIdle(receiver: Case, unshift: bool)
    ensures Strikes([LTRS], receiver, unshift) == []
    ensures CaseAfterAll([LTRS], receiver, unshift) == Letters
  {
  }

  /** A receiver in the sender's case strikes exactly the positions asked for and
      stays in the sender's case. */
  lemma {:induction false} InStep(load: Load, shift: Case)
    ensures Strikes(Key(load, shift), shift, false) == Positions(load, shift)
    ensures CaseAfterAll(Key(load, shift), shift, false) == ShiftAfter(load, shift)
  {
    if load != [] {
      var k := ShiftOne(load[0], shift);
      var head := KeyOne(load[0], shift);
      InStep(load[1..], k);
      StrikesAppend(head, Key(load[1..], k), shift, false);
      CaseAfterAppend(head, Key(load[1..], k), shift, false);
      match load[0]
      case None => ReadIdle(shift, false);
      case Some(c) =>
        EncodePrints(c, shift);
        ReadOne(Encode(c, shift), shift, shift, false);
    }
  }

  lemma {:induction false} PositionsPrint(load: Load, shift: Case)
    ensures Paper(Positions(load, shift)) == ShownAll(Chars(load))
  {
    if load != [] {
      PositionsPrint(load[1..], ShiftOne(load[0], shift));
      if load[0].Some? {
        EncodePrints(load[0].value, shift);
        assert Positions(load, shift)[1..] == Positions(load[1..], ShiftOne(load[0], shift));
        assert Chars(load)[1..] == Chars(load[1..]);
      } else {
        assert Positions(load, shift) == Positions(load[1..], Letters) && Chars(load) == Chars(load[1..]);
      }
    }
  }

  /** Every character that has a code is sent in its own case, whatever was sent before;
      spaces in particular are always letters. */
  lemma {:induction false} OwnCase(load: Load, shift: Case)
    ensures |Positions(load, shift)| == |Chars(load)|
    ensures forall i :: 0 <= i < |Chars(load)| && Lookup(Chars(load)[i]).Some? ==>
      Positions(load, shift)[i] == Lookup(Chars(load)[i]).value
    ensures forall i :: 0 <= i < |Chars(load)| && Chars(load)[i] == ' ' ==>
      Positions(load, shift)[i] == Code(Letters, SPACE_BITS)
  {
    if load != [] {
      OwnCase(load[1..], ShiftOne(load[0], shift));
      if load[0].Some? {
        var c := load[0].value;
        assert Encode(c, shift) == if Lookup(c).Some? then Lookup(c).value else Code(shift, SPACE_BITS);
        assert Lookup(' ') == Some(Code(Letters, SPACE_BITS));
        FrontPosition(load, shift);
      } else {
        assert Chars(load) == Chars(load[1..]) && Positions(load, shift) == Positions(load[1..], Letters);
      }
    }
  }

  lemma FrontPosition(load: Load, shift: Case)
    requires load != [] && load[0].Some?
    ensures Chars(load)[0] == load[0].value && Chars(load)[1..] == Chars(load[1..])
    ensures Positions(load, shift)[0] == Encode(load[0].value, shift)
    ensures Positions(load, shift)[1..] == Positions(load[1..], ShiftOne(load[0], shift))
  {
  }

  /** Round trip: a receiver that starts in the sender's case prints exactly the
      characters sent; idles are invisible. */
  lemma RoundTrip(load: Load, shift: Case)
    ensures Display(Key(load, shift), shift, false) == ShownAll(Chars(load))
  {
    InStep(load, shift);
    PositionsPrint(load, shift);
  }

  /** One idle in front brings a receiver in any case into step with a sender in
      any case. */
  lemma IdleResynchronises(load: Load, sender: Case, receiver: Case)
    requires load != [] && load[0].None?
    ensures Display(Key(load, sender), receiver, false) == ShownAll(Chars(load))
  {
    var tail := Key(load[1..], Letters);
    RoundTrip(load[1..], Letters);
    ReadIdle(receiver, false);
    StrikesAppend([LTRS], tail, receiver, false);
    assert Key(load, sender) == [LTRS] + tail;
    var strikes := Strikes(tail, Letters, false);
    assert Strikes([LTRS] + tail, receiver, false) == [] + strikes == strikes;
    assert Chars(load) == "" + Chars(load[1..]) == Chars(load[1..]);
  }

  /** The shift codes a load needs: one for each encodable character whose case is
      not the one the line is in. */
  function Changes(load: Load, shift: Case): nat {
    if load == [] then 0
    else match load[0]
      case None => Changes(load[1..], Letters)
      case Some(c) =>
        match Lookup(c)
        case None => Changes(load[1..], shift)
        case Some(code) => (if code.shift != shift then 1 else 0) + Changes(load[1..], code.shift)
  }

  lemma {:induction false} CodeCount(load: Load, shift: Case)
    ensures |Key(load, shift)| == |load| + Changes(load, shift)
  {
    if load != [] {
      CodeCount(load[1..], ShiftOne(load[0], shift));
    }
  }

  // ---- Receivers that unshift on space -----------------------------------

  /** Whether a figure is sent with no shift code after a space that stands for an
      unencodable character in figures case.  `stale` is set while such a space
      is the last thing that decided an unshifting receiver's case. */
  predicate Slips(load: Load, shift: Case, stale: bool) {
    load != [] &&
    match load[0]
    case None => Slips(load[1..], Letters, false)
    case Some(c) =>
      match Lookup(c)
      case None => Slips(load[1..], shift, stale || shift == Figures)
      case Some(code) =>
        if code.shift == Letters then Slips(load[1..], Letters, false)
        else (shift == Figures && stale) || Slips(load[1..], Figures, false)
  }

  /** Receivers that do and do not fall back to letters on space agree exactly
      when no figure slips; the unshifting receiver is in letters when stale. */
  lemma {:induction false} UnshiftAgrees(load: Load, shift: Case, stale: bool)
    requires stale ==> shift == Figures
    ensures Display(Key(load, shift), if stale then Letters else shift, true)
         == Display(Key(load, shift), shift, false)
       <==> !Slips(load, shift, stale)
  {
    if load != [] {
      var receiver := if stale then Letters else shift;
      var k := ShiftOne(load[0], shift);
      var head, tail := KeyOne(load[0], shift), Key(load[1..], k);
      StrikesAppend(head, tail, receiver, true);
      StrikesAppend(head, tail, shift, false);
      match load[0]
      case None =>
        ReadIdle(receiver, true);
        ReadIdle(shift, false);
        assert Strikes(head + tail, receiver, true) == Strikes(tail, Letters, true);
        assert Strikes(head + tail, shift, false) == Strikes(tail, Letters, false);
        UnshiftAgrees(load[1..], Letters, false);
      case Some(c) =>
        var e := Encode(c, shift);
        CodeFacts(c, shift);
        ReadOne(e, shift, receiver, true);
        ReadOne(e, shift, shift, false);
        var r := if e.shift != shift then e.shift else receiver;
        UnshiftStep(e, Lookup(c).Some?, shift, stale);
        var stale' := StaleAfter(Lookup(c).Some?, shift, stale);
        UnshiftAgrees(load[1..], k, stale');
        SlipsStep(load, shift, stale);
        PaperHead(Code(r, e.bits), e, Strikes(tail, CaseAfter(e.bits, r, true), true), Strikes(tail, k, false));
    }
  }

  function StaleAfter(encodable: bool, shift: Case, stale: bool): bool {
    !encodable && (stale || shift == Figures)
  }

  lemma SlipsStep(load: Load, shift: Case, stale: bool)
    requires load != [] && load[0].Some?
    ensures var e, encodable := Encode(load[0].value, shift), Lookup(load[0].value).Some?;
      Slips(load, shift, stale)
      <==> (encodable && e.shift == Figures && shift == Figures && stale)
           || Slips(load[1..], e.shift, StaleAfter(encodable, shift, stale))
  {
  }

  lemma PaperHead(a: Code, b: Code, s: seq<Code>, t: seq<Code>)
    ensures Paper([a] + s) == Paper([b] + t) <==> Glyph(a) == Glyph(b) && Paper(s) == Paper(t)
  {
    assert ([a] + s)[1..] == s && ([b] + t)[1..] == t;
    assert Paper([a] + s)[0] == Glyph(a) && Paper([b] + t)[0] == Glyph(b);
    assert Paper([a] + s)[1..] == Paper(s) && Paper([b] + t)[1..] == Paper(t);
  }

  /** The first code is struck alike unless it slips, and decides the unshifting
      receiver's next case. */
  lemma UnshiftStep(e: Code, encodable: bool, shift: Case, stale: bool)
    requires stale ==> shift == Figures
    requires IsCode(e, encodable, shift)
    ensures var receiver := if stale then Letters else shift;
      var r := if e.shift != shift then e.shift else receiver;
      var slips := encodable && e.shift == Figures && shift == Figures && stale;
      && (!encodable ==> e.bits == SPACE_BITS)
      && (encodable && !slips ==> r == e.shift)
      && (slips ==> r == Letters)
      && (!slips ==> CaseAfter(e.bits, r, true) == if StaleAfter(encodable, shift, stale) then Letters else e.shift)
      && CaseAfter(e.bits, e.shift, false) == e.shift
  {
  }

  /** The practical case: text that has a code for every character. */
  lemma {:induction false} EncodableNeverSlips(load: Load, shift: Case)
    requires forall c :: c in Chars(load) ==> Lookup(c).Some?
    ensures !Slips(load, shift, false)
  {
    if load != [] {
      CharsAppend([load[0]], load[1..]);
      assert [load[0]] + load[1..] == load;
      EncodableNeverSlips(load[1..], Letters);
      EncodableNeverSlips(load[1..], Figures);
      if load[0].Some? { assert load[0].value in Chars(load); }
    }
  }
}
