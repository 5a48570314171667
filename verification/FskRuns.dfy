/** What every run of the FSK keyer guarantees, whatever the interleaving. */
module FskRuns {
  import opened Common
  import opened Baudot
  import opened Line
  import opened Fsk
  import T = Transducer

  // ---- Text to air and back ----------------------------------------------

  /** End to end, from a line at MARK: read its levels since `s` with any clock that fits, print
      the codes with a receiver in the sender's case, and out come exactly the
      data characters sent since, idles and control characters invisible. */
  lemma EndToEnd(s: State, events: seq<Event>, p: real)
    requires ClockFits(p) && RestsAtMark(s)
    ensures var s' := Run(s, events);
      && s.wave <= s'.wave
      && Display(Receive(s'.wave[|s.wave|..], s.inverted, p), s.shift, false)
           == ShownAll(T.Chars(Load(AllNews(s, events))))
  {
    ReceivedCodes(s, events, p);
    T.RoundTrip(Load(AllNews(s, events)), s.shift);
  }

  lemma ReceivedCodes(s: State, events: seq<Event>, p: real)
    requires ClockFits(p) && RestsAtMark(s)
    ensures var s' := Run(s, events);
      && s.wave <= s'.wave
      && Receive(s'.wave[|s.wave|..], s.inverted, p) == T.Key(Load(AllNews(s, events)), s.shift)
  {
    RunGrows(s, events);
    var news := AllNews(s, events);
    ReceiveWave(OnLine(news), s.inverted, p);
    assert Run(s, events).wave[|s.wave|..] == Wave(OnLine(news), s.inverted);
  }

  // ---- Text conservation -------------------------------------------------

  /** Everything in the keyer's hands and everything that has left them, in order. */
  function Accounted(s: State): string { Gone(s.log) + s.buff + s.newText }

  lemma ControlConserves(s: State, setting: nat)
    ensures Accounted(Sending(s, setting).0) == Accounted(s)
  {
    var s1, text, gone := Sending(s, setting).0, s.buff + s.newText, Gone(s.log);
    GoneAppend(s.log, Control(s));
    assert |Control(s)| == 1 ==> Control(s)[1..] == [];
    Assoc(gone, s.buff, s.newText);
    ControlText(gone, text);
    assert s1.log == s.log + Control(s) && s1.newText == "";
    assert Gone(Control(s)) == if StartsWith(text, '[') then "[" else if StartsWith(text, ']') then text else "";
    assert s1.buff == if StartsWith(text, '[') then text[1..] else if StartsWith(text, ']') then "" else text;
  }

  lemma ControlText(gone: string, text: string)
    ensures StartsWith(text, '[') ==> gone + "[" + text[1..] + "" == gone + text
    ensures gone + text + "" == gone + text && gone + text + "" + "" == gone + text
    ensures gone + "" + text + "" == gone + text
  {
  }

  lemma BranchText(s: State, branch: Branch, short: bool, pause: real)
    requires branch.Keying? ==> s.buff != ""
    ensures var t := BranchStep(s, branch, short, pause);
      t.newText == s.newText && t.buff == if branch.Keying? then s.buff[1..] else s.buff
  {
    if branch.Keying? {
      SendDataFrame(s.(buff := s.buff[1..], awake := s.awake + [ShowText]), branch.c, short);
    }
  }

  lemma BranchConserves(s: State, branch: Branch, short: bool, pause: real)
    requires branch.Keying? ==> s.buff != "" && branch.c == s.buff[0]
    ensures Accounted(BranchStep(s, branch, short, pause)) == Accounted(s)
  {
    var s' := BranchStep(s, branch, short, pause);
    BranchGone(s, branch, short, pause);
    if branch.Keying? {
      BranchText(s, branch, short, pause);
      MoveOne(Gone(s.log), s.buff);
    }
  }

  lemma MoveOne(gone: string, buff: string)
    requires buff != ""
    ensures gone + [buff[0]] + buff[1..] == gone + buff
  {
  }

  lemma BranchGone(s: State, branch: Branch, short: bool, pause: real)
    requires branch.Keying? ==> s.buff != ""
    ensures Gone(BranchStep(s, branch, short, pause).log)
         == Gone(s.log) + if branch.Keying? then [branch.c] else ""
  {
    BranchGrows(s, branch, short, pause);
    var news := BranchEntries(branch, s.shift, short, pause);
    GoneAppend(s.log, news);
    if branch.Keying? {
      DataLoad(branch.c, s.shift, short);
    } else {
      assert news[1..] == [];
    }
  }

  lemma CallbackConserves(s: State, setting: nat, short: bool, pause: real)
    ensures Accounted(CallbackStep(s, setting, short, pause)) == Accounted(s)
  {
    var (s1, sending) := Sending(s, setting);
    ControlConserves(s, setting);
    BranchConserves(s1, BranchOf(s1, sending), short, pause);
  }

  lemma StepConserves(s: State, e: Event)
    ensures Accounted(Step(s, e)) == Accounted(s) + AddedBy(e)
  {
    match e
    case Callback(setting, short, pause) => CallbackConserves(s, setting, short, pause);
    case Add(text) => Assoc(Gone(s.log) + s.buff, s.newText, text);
    case Clear =>
      GoneAppend(s.log, [Cleared(s.buff)]);
      assert [Cleared(s.buff)][1..] == [];
      ClearedText(Gone(s.log), s.buff, s.newText);
    case _ =>
  }

  lemma ClearedText(gone: string, buff: string, newText: string)
    ensures gone + (buff + "") + "" + newText == gone + buff + newText
  {
  }

  /** All text ever added is, in order, what was sent or discarded and what is
      still waiting: nothing is duplicated, reordered or silently dropped. */
  lemma {:induction false} RunConserves(s: State, events: seq<Event>)
    ensures Accounted(Run(s, events)) == Accounted(s) + Added(events)
    decreases |events|
  {
    if events != [] {
      StepConserves(s, events[0]);
      RunConserves(Step(s, events[0]), events[1..]);
      Assoc(Accounted(s), AddedBy(events[0]), Added(events[1..]));
    }
  }

  /** All text that waits, exactly, after each kind of step.  A `]` discards all of it, a
      clear only what the sending thread has taken over, and nothing else discards any. */
  lemma WaitingAfter(s: State, e: Event)
    ensures var (text, s') := (s.buff + s.newText, Step(s, e));
      s'.buff + s'.newText ==
      match e
      case Add(more) => text + more
      case Clear => s.newText
      case Callback(setting, _, _) =>
        if text == "" || text[0] == ']' then ""
        else if text[0] == '[' then if setting > 0 || |text| == 1 then text[1..] else text[2..]
        else if s.button && s.idles == 0 then text[1..] else text
      case _ => text
  {
    match e
    case Callback(setting, short, pause) =>
      var (s1, sending) := Sending(s, setting);
      BranchText(s1, BranchOf(s1, sending), short, pause);
      WaitingKeyed(s, setting);
    case Add(more) => Assoc(s.buff, s.newText, more);
    case _ =>
  }

  /** What the callback's branch works on. */
  lemma WaitingKeyed(s: State, setting: nat)
    ensures var (text, (s1, sending)) := (s.buff + s.newText, Sending(s, setting));
      && s1.newText == ""
      && s1.buff == (if text == "" || text[0] == ']' then "" else if text[0] == '[' then text[1..] else text)
      && (BranchOf(s1, sending).Keying? <==>
           s1.buff != "" && if text[0] == '[' then setting == 0 else s.button && s.idles == 0)
  {
  }

  predicate Waiting(s: State, c: char) { c in s.buff || c in s.newText }

  lemma NoStop(s: State, e: Event)
    requires !Waiting(s, ']') && !e.Clear? && (e.Add? ==> ']' !in e.text)
    ensures !Waiting(Step(s, e), ']')
    ensures forall x :: x in News(s, e) ==> !Discarded(x)
  {
    if e.Callback? {
      var (s1, sending) := Sending(s, e.setting);
      assert ']' !in s1.buff && s1.newText == "";
      BranchText(s1, BranchOf(s1, sending), e.short, e.pause);
      BranchDiscardsNothing(s1, BranchOf(s1, sending), e.short, e.pause);
      assert forall x :: x in Control(s) ==> !Discarded(x);
    }
  }

  lemma BranchDiscardsNothing(s: State, branch: Branch, short: bool, pause: real)
    requires branch.Keying? ==> s.buff != ""
    ensures forall x :: x in BranchEntries(branch, s.shift, short, pause) ==> !Discarded(x)
  {
  }

  predicate Discarded(x: Entry) { x.Stopped? || x.Cleared? }

  /** Nothing is discarded in a run without `]` and without a clear. */
  lemma {:induction false} NothingDiscarded(s: State, events: seq<Event>)
    requires !Waiting(s, ']') && ']' !in Added(events) && Clear !in events
    ensures forall x :: x in AllNews(s, events) ==> !Discarded(x)
    ensures !Waiting(Run(s, events), ']')
    decreases |events|
  {
    if events != [] {
      NoStop(s, events[0]);
      NothingDiscarded(Step(s, events[0]), events[1..]);
    }
  }

  // ---- Brackets ----------------------------------------------------------

  predicate IsBracket(c: char) { c == '[' || c == ']' }

  predicate KeysBracket(news: seq<Entry>) {
    exists c :: c in T.Chars(Load(news)) && IsBracket(c)
  }

  /** A step keys a bracket exactly when a callback finds one straight behind a `[`
      while no start-up idles are configured. */
  lemma BracketStep(s: State, e: Event)
    ensures KeysBracket(News(s, e)) <==>
      && e.Callback? && e.setting == 0
      && var text := s.buff + s.newText;
         |text| >= 2 && text[0] == '[' && IsBracket(text[1])
  {
    if e.Callback? { StepLoad(s, e); } else { OtherLoad(s, e); }
  }

  lemma OtherLoad(s: State, e: Event)
    requires !e.Callback?
    ensures Load(News(s, e)) == [] && T.Chars(Load(News(s, e))) == ""
  {
  }

  /** Without start-up idles the second of two `[`s is keyed, and read as a space. */
  lemma BracketIsKeyed(inverted: bool, short: bool, pause: real)
    ensures var s := Step(Init(0, inverted), Add("[["));
      KeysBracket(News(s, Callback(0, short, pause)))
  {
    BracketStep(Step(Init(0, inverted), Add("[[")), Callback(0, short, pause));
  }

  /** The load of a callback: one idle, one character, or nothing. */
  lemma StepLoad(s: State, e: Event)
    requires e.Callback?
    ensures var (s1, sending) := Sending(s, e.setting);
      var branch := BranchOf(s1, sending);
      && Load(News(s, e)) == (match branch case Pausing => [] case Idling => [None] case Keying(c) => [Some(c)])
      && T.Chars(Load(News(s, e))) == if branch.Keying? then [branch.c] else ""
  {
    var (s1, sending) := Sending(s, e.setting);
    var branch := BranchOf(s1, sending);
    var news := BranchEntries(branch, s1.shift, e.short, e.pause);
    LoadAppend(Control(s), news);
    ControlIsSilent(s);
    BranchLoad(branch, s1.shift, e.short, e.pause);
    assert [] + Load(news) == Load(news);
  }

  lemma BranchLoad(branch: Branch, shift: Case, short: bool, pause: real)
    ensures var load := Load(BranchEntries(branch, shift, short, pause));
      && load == (match branch case Pausing => [] case Idling => [None] case Keying(c) => [Some(c)])
      && T.Chars(load) == if branch.Keying? then [branch.c] else ""
  {
    var news := BranchEntries(branch, shift, short, pause);
    var idle: T.Load := [None];
    assert idle[1..] == [];
    if branch.Keying? {
      DataLoad(branch.c, shift, short);
      var load: T.Load := [Some(branch.c)];
      assert load[1..] == [];
    } else {
      assert news[1..] == [];
    }
  }

  /** Every callback of the run reads an idle setting of at least `n`. */
  predicate SettingsAtLeast(events: seq<Event>, n: nat) {
    forall e :: e in events && e.Callback? ==> e.setting >= n
  }

  lemma NewsLoadAppend(s: State, events: seq<Event>)
    requires events != []
    ensures var s1 := Step(s, events[0]);
      && Load(AllNews(s, events)) == Load(News(s, events[0])) + Load(AllNews(s1, events[1..]))
      && T.Chars(Load(AllNews(s, events)))
           == T.Chars(Load(News(s, events[0]))) + T.Chars(Load(AllNews(s1, events[1..])))
      && Gone(AllNews(s, events)) == Gone(News(s, events[0])) + Gone(AllNews(s1, events[1..]))
  {
    var s1 := Step(s, events[0]);
    LoadAppend(News(s, events[0]), AllNews(s1, events[1..]));
    T.CharsAppend(Load(News(s, events[0])), Load(AllNews(s1, events[1..])));
    GoneAppend(News(s, events[0]), AllNews(s1, events[1..]));
  }

  lemma {:induction false} NoBracketKeyed(s: State, events: seq<Event>)
    requires SettingsAtLeast(events, 1)
    ensures !KeysBracket(AllNews(s, events))
    decreases |events|
  {
    if events != [] {
      BracketStep(s, events[0]);
      NoBracketKeyed(Step(s, events[0]), events[1..]);
      NewsLoadAppend(s, events);
    }
  }

  // ---- What was typed is what is read ------------------------------------

  function DropOpens(s: string): string {
    if s == "" then "" else (if s[0] == '[' then "" else [s[0]]) + DropOpens(s[1..])
  }

  lemma {:induction false} DropOpensAppend(a: string, b: string)
    ensures DropOpens(a + b) == DropOpens(a) + DropOpens(b)
  {
    Front(a, b);
    if a != "" {
      DropOpensAppend(a[1..], b);
      Assoc(if a[0] == '[' then "" else [a[0]], DropOpens(a[1..]), DropOpens(b));
    }
  }

  /** One step of a run in which nothing is stopped or cleared. */
  lemma CleanStep(s: State, e: Event)
    requires !Waiting(s, ']') && !e.Clear? && (e.Add? ==> ']' !in e.text) && (e.Callback? ==> e.setting >= 1)
    ensures !Waiting(Step(s, e), ']')
    ensures T.Chars(Load(News(s, e))) == DropOpens(Gone(News(s, e)))
  {
    NoStop(s, e);
    if e.Callback? { CleanCallback(s, e); }
  }

  lemma CallbackGone(s: State, e: Event)
    requires e.Callback?
    ensures var (s1, sending) := Sending(s, e.setting);
      var branch := BranchOf(s1, sending);
      Gone(News(s, e)) == Gone(Control(s)) + if branch.Keying? then [branch.c] else ""
  {
    var (s1, sending) := Sending(s, e.setting);
    var branch := BranchOf(s1, sending);
    var news := BranchEntries(branch, s1.shift, e.short, e.pause);
    GoneAppend(Control(s), news);
    if branch.Keying? {
      DataLoad(branch.c, s1.shift, e.short);
    } else {
      assert news[1..] == [];
    }
  }

  /** What a callback takes from the text is a control character, a character it keys,
      both or neither. */
  lemma CallbackText(s: State, e: Event)
    requires e.Callback?
    ensures var sent := T.Chars(Load(News(s, e)));
      |sent| <= 1 && Gone(News(s, e)) == Gone(Control(s)) + sent
  {
    StepLoad(s, e);
    CallbackGone(s, e);
  }

  lemma OnlyOpens(s: State)
    requires !Waiting(s, ']')
    ensures Gone(Control(s)) == "" || Gone(Control(s)) == "["
  {
    assert |Control(s)| == 1 ==> Control(s)[1..] == [];
  }

  lemma DropFront(control: string, sent: string)
    requires control == "" || control == "["
    requires |sent| <= 1 && '[' !in sent
    ensures DropOpens(control + sent) == sent
  {
    assert "["[1..] == "" && (|sent| == 1 ==> sent[1..] == "");
    DropOpensAppend(control, sent);
  }

  lemma CleanCallback(s: State, e: Event)
    requires !Waiting(s, ']') && e.Callback? && e.setting >= 1
    ensures T.Chars(Load(News(s, e))) == DropOpens(Gone(News(s, e)))
  {
    CallbackText(s, e);
    BracketStep(s, e);
    OnlyOpens(s);
    assert IsBracket('[');
    DropFront(Gone(Control(s)), T.Chars(Load(News(s, e))));
  }

  lemma {:induction false} CleanRun(s: State, events: seq<Event>)
    requires !Waiting(s, ']') && ']' !in Added(events) && Clear !in events && SettingsAtLeast(events, 1)
    ensures T.Chars(Load(AllNews(s, events))) == DropOpens(Gone(AllNews(s, events)))
    decreases |events|
  {
    if events != [] {
      CleanStep(s, events[0]);
      CleanRun(Step(s, events[0]), events[1..]);
      NewsLoadAppend(s, events);
      DropOpensAppend(Gone(News(s, events[0])), Gone(AllNews(Step(s, events[0]), events[1..])));
    }
  }

  /** With start-up idles configured, no `]` and no clear, the receiver prints the
      text that was added, in order, without its `[`s: all of it but what is
      still waiting in the keyer. */
  lemma TypedIsRead(setting: nat, inverted: bool, events: seq<Event>, p: real)
    requires ClockFits(p)
    requires ']' !in Added(events) && Clear !in events && SettingsAtLeast(events, 1)
    ensures var s := Run(Init(setting, inverted), events);
      var waiting := s.buff + s.newText;
      && |waiting| <= |Added(events)|
      && var sent := Added(events)[..|Added(events)| - |waiting|];
         && Added(events) == sent + waiting
         && Display(Receive(s.wave, inverted, p), Figures, false) == ShownAll(DropOpens(sent))
  {
    var s0 := Init(setting, inverted);
    var s := Run(s0, events);
    EndToEnd(s0, events, p);
    CleanRun(s0, events);
    RunConserves(s0, events);
    RunGrows(s0, events);
    assert s.wave[0..] == s.wave;
    assert s.log == [] + AllNews(s0, events) == AllNews(s0, events);
    SplitAtWaiting(Gone(s.log), s.buff, s.newText, Added(events));
  }

  lemma SplitAtWaiting(gone: string, buff: string, newText: string, added: string)
    requires gone + buff + newText == added
    ensures added[..|added| - |buff + newText|] == gone && added == gone + (buff + newText)
  {
  }

  // ---- Resynchronisation -------------------------------------------------

  /** After a `[` is consumed with start-up idles, a receiver in any case prints
      everything keyed from there on correctly, whatever happens next. */
  lemma Resynchronises(s: State, n: nat, short: bool, pause: real, events: seq<Event>, receiver: Case, p: real)
    requires ClockFits(p) && RestsAtMark(s) && n >= 1 && StartsWith(s.buff + s.newText, '[')
    ensures var run := [Callback(n, short, pause)] + events;
      && s.wave <= Run(s, run).wave
      && Display(Receive(Run(s, run).wave[|s.wave|..], s.inverted, p), receiver, false)
           == ShownAll(T.Chars(Load(AllNews(s, run))))
  {
    var e := Callback(n, short, pause);
    var run := [e] + events;
    ReceivedCodes(s, run, p);
    StepLoad(s, e);
    NewsLoadAppend(s, run);
    assert run[0] == e && run[1..] == events;
    T.IdleResynchronises(Load(AllNews(s, run)), s.shift, receiver);
  }

  /** The idles in front of the first character. */
  function LeadingIdles(load: T.Load): nat {
    if load == [] || load[0].Some? then 0 else 1 + LeadingIdles(load[1..])
  }

  lemma {:induction false} IdlesLead(s: State, events: seq<Event>, n: nat)
    requires s.idles >= n && SettingsAtLeast(events, n)
    ensures var load := Load(AllNews(s, events)); T.Chars(load) == "" || LeadingIdles(load) >= n
    decreases |events|
  {
    if events != [] && n > 0 {
      var m := StepIdles(s, events[0], n);
      assert SettingsAtLeast(events[1..], m);
      IdlesLead(Step(s, events[0]), events[1..], m);
      NewsLoadAppend(s, events);
      LeadFront(Load(News(s, events[0])), Load(AllNews(Step(s, events[0]), events[1..])), n, m);
    }
  }

  /** The idles still owed after a step. */
  lemma StepIdles(s: State, e: Event, n: nat) returns (m: nat)
    requires n >= 1 && s.idles >= n && (e.Callback? ==> e.setting >= n)
    ensures (Load(News(s, e)) == [] && m == n) || (Load(News(s, e)) == [None] && m + 1 == n)
    ensures T.Chars(Load(News(s, e))) == "" && Step(s, e).idles >= m
  {
    if e.Callback? { CallbackIdles(s, e, n); } else { OtherLoad(s, e); }
    m := if Load(News(s, e)) == [] then n else n - 1;
  }

  /** A first item that is an idle, or nothing, in front of idles that lead. */
  lemma LeadFront(head: T.Load, tail: T.Load, n: nat, m: nat)
    requires (head == [] && m == n) || (head == [None] && m + 1 == n)
    requires T.Chars(tail) == "" || LeadingIdles(tail) >= m
    ensures T.Chars(tail) == "" || LeadingIdles(head + tail) >= n
  {
    Front(head, tail);
  }

  /** While start-up idles are owed, a callback sends one or sends nothing. */
  lemma CallbackIdles(s: State, e: Event, n: nat)
    requires e.Callback? && n >= 1 && s.idles >= n && e.setting >= n
    ensures Load(News(s, e)) == [] || Load(News(s, e)) == [None]
    ensures T.Chars(Load(News(s, e))) == ""
    ensures Step(s, e).idles >= if Load(News(s, e)) == [] then n else n - 1
  {
    StepLoad(s, e);
    var (s1, sending) := Sending(s, e.setting);
    assert s1.idles >= n;
  }

  /** At least the configured number of idles goes out between a `[` and the next
      character, in every interleaving. */
  lemma StartUpIdles(s: State, n: nat, short: bool, pause: real, events: seq<Event>)
    requires StartsWith(s.buff + s.newText, '[') && SettingsAtLeast(events, n)
    ensures var load := Load(AllNews(s, [Callback(n, short, pause)] + events));
      T.Chars(load) == "" || LeadingIdles(load) >= n
  {
    var e := Callback(n, short, pause);
    var run := [e] + events;
    assert run[0] == e && run[1..] == events;
    NewsLoadAppend(s, run);
    if n > 0 {
      StepLoad(s, e);
      IdlesLead(Step(s, e), events, n - 1);
      var tail := Load(AllNews(Step(s, e), events));
      var idle: T.Load := [None];
      assert (idle + tail)[1..] == tail;
    }
  }

  // ---- Air time ----------------------------------------------------------

  /** Every callback of the run reads the same stop-bit setting. */
  predicate StopsAre(events: seq<Event>, short: bool) {
    forall e :: e in events && e.Callback? ==> e.short == short
  }

  predicate Stops(line: seq<LineEvent>, short: bool) {
    forall e :: e in line && e.Frame? ==> e.short == short
  }

  lemma {:induction false} UniformStops(line: seq<LineEvent>, short: bool)
    requires Stops(line, short)
    ensures HalfBits(line) == (if short then 15 else 16) * |Codes(line)|
  {
    if line != [] { UniformStops(line[1..], short); }
  }

  lemma DataStops(c: char, shift: Case, short: bool)
    ensures Stops(OnLine(DataEntries(c, shift, short)), short)
  {
    var e := Encode(c, shift);
    var a, b := [Sent(Shift, T.ShiftCode(e.shift), short)], [Sent(Data(c), e.bits, short)];
    assert a[1..] == [] && b[1..] == [];
    OnLineAppend(if e.shift == shift then [] else a, b);
  }

  /** All frames of a callback have the stop length it read. */
  lemma StepStops(s: State, e: Event, short: bool)
    requires e.Callback? ==> e.short == short
    ensures Stops(OnLine(News(s, e)), short)
  {
    if e.Callback? {
      var (s1, sending) := Sending(s, e.setting);
      var branch := BranchOf(s1, sending);
      var news := BranchEntries(branch, s1.shift, short, e.pause);
      OnLineAppend(Control(s), news);
      assert |Control(s)| == 1 ==> Control(s)[1..] == [];
      if branch.Keying? { DataStops(branch.c, s1.shift, short); } else { assert news[1..] == []; }
    }
  }

  lemma {:induction false} RunStops(s: State, events: seq<Event>, short: bool)
    requires StopsAre(events, short)
    ensures Stops(OnLine(AllNews(s, events)), short)
    decreases |events|
  {
    if events != [] {
      StepStops(s, events[0], short);
      RunStops(Step(s, events[0]), events[1..], short);
      OnLineAppend(News(s, events[0]), AllNews(Step(s, events[0]), events[1..]));
    }
  }

  /** The time on the air of any run: 15 or 16 half-bits a frame, the pauses, and nothing
      else; one code for each idle and character and one for each change of case. */
  lemma AirTimeOfRun(s: State, events: seq<Event>)
    requires RestsAtMark(s)
    ensures var s' := Run(s, events);
      var news := AllNews(s, events);
      && Length(s'.wave) == Length(s.wave)
           + HalfBits(OnLine(news)) as real * (BITLEN / 2.0) + RestTime(OnLine(news))
      && |Codes(OnLine(news))| == |Load(news)| + T.Changes(Load(news), s.shift)
  {
    RunGrows(s, events);
    var news := AllNews(s, events);
    AirTime(OnLine(news), s.inverted);
    LengthAppend(s.wave, Wave(OnLine(news), s.inverted));
    T.CodeCount(Load(news), s.shift);
  }

  /** While the stop-bit setting is left alone: 15 or 16 half-bits for each idle, each
      character and each change of case, plus the pauses. */
  lemma SteadyAirTime(s: State, events: seq<Event>, short: bool)
    requires RestsAtMark(s) && StopsAre(events, short)
    ensures var news := AllNews(s, events);
      var codes := |Load(news)| + T.Changes(Load(news), s.shift);
      Length(Run(s, events).wave) == Length(s.wave)
        + ((if short then 15 else 16) * codes) as real * (BITLEN / 2.0) + RestTime(OnLine(news))
  {
    AirTimeOfRun(s, events);
    RunStops(s, events, short);
    UniformStops(OnLine(AllNews(s, events)), short);
  }

  // ---- Receivers that unshift on space ------------------------------------

  /** A receiver that falls back to letters on space prints the same text exactly
      when no figure follows, unshifted, a space that stands for an unencodable
      character in figures case. */
  lemma UnshiftOnSpace(s: State, events: seq<Event>, p: real)
    requires ClockFits(p) && RestsAtMark(s)
    ensures var s', load := Run(s, events), Load(AllNews(s, events));
      && s.wave <= s'.wave
      && var codes := Receive(s'.wave[|s.wave|..], s.inverted, p);
         && (Display(codes, s.shift, true) == Display(codes, s.shift, false) <==> !T.Slips(load, s.shift, false))
         && ((forall c :: c in T.Chars(load) ==> Lookup(c).Some?) ==> !T.Slips(load, s.shift, false))
  {
    var load := Load(AllNews(s, events));
    ReceivedCodes(s, events, p);
    T.UnshiftAgrees(load, s.shift, false);
    if forall c :: c in T.Chars(load) ==> Lookup(c).Some? { T.EncodableNeverSlips(load, s.shift); }
  }
}
