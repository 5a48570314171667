/** Transmit control of the FSK keyer: push-to-talk, the operator's button racing
    with the sending thread, and progress. */
module FskControl {
  import opened Common
  import opened Baudot
  import opened Line
  import opened Fsk
  import R = FskRuns
  import T = Transducer

  // ---- Push-to-talk ------------------------------------------------------

  /** The doPTT calls alternate, starting with on, and the last one is FSK_process. */
  predicate Alternates(s: State) {
    && (forall i :: 0 <= i < |s.ptt| ==> s.ptt[i] == (i % 2 == 0))
    && s.process == (|s.ptt| % 2 == 1)
  }

  lemma SendTextAlternates(s: State, on: bool)
    requires Alternates(s)
    ensures Alternates(SendText(s, on)) && SendText(s, on).process == on
  {
  }

  /** A callback leaves the transmit state, the button and the queue as `sending` left
      them, but for a request to refresh the text shown. */
  lemma CallbackFrame(s: State, e: Event)
    requires e.Callback?
    ensures var s1, s2 := Sending(s, e.setting).0, Step(s, e);
      && s2.ptt == s1.ptt && s2.process == s1.process && s2.button == s1.button
      && (s2.awake == s1.awake || s2.awake == s1.awake + [ShowText])
  {
    var (s1, sending) := Sending(s, e.setting);
    var branch := BranchOf(s1, sending);
    if branch.Keying? {
      SendDataFrame(s1.(buff := s1.buff[1..], awake := s1.awake + [ShowText]), branch.c, e.short);
    }
  }

  lemma StepAlternates(s: State, e: Event)
    requires Alternates(s)
    ensures Alternates(Step(s, e))
  {
    match e
    case Callback(setting, short, pause) =>
      var m := Merge(s);
      SendTextAlternates(m, true);
      SendTextAlternates(m, false);
      assert Alternates(Sending(s, setting).0);
      CallbackFrame(s, e);
    case Click(on) =>
      SendTextAlternates(s, on);
    case _ =>
  }

  lemma {:induction false} RunAlternates(s: State, events: seq<Event>)
    requires Alternates(s)
    ensures Alternates(Run(s, events))
    decreases |events|
  {
    if events != [] {
      StepAlternates(s, events[0]);
      RunAlternates(Step(s, events[0]), events[1..]);
    }
  }

  /** A fresh keyer has the transmitter off, so doPTT begins with on. */
  lemma FreshAlternates(setting: nat, inverted: bool, events: seq<Event>)
    ensures Alternates(Run(Init(setting, inverted), events))
  {
    RunAlternates(Init(setting, inverted), events);
  }

  /** And until there is text or a click it keys nothing and calls nothing. */
  lemma {:induction false} FreshIsSilent(setting: nat, inverted: bool, s: State, events: seq<Event>)
    requires s == Init(setting, inverted).(wave := s.wave, log := s.log)
    requires forall e :: e in events ==> e.Callback? || e.Deliver?
    ensures Load(AllNews(s, events)) == [] && Run(s, events).ptt == [] && !Run(s, events).process
    decreases |events|
  {
    if events != [] {
      var e := events[0];
      assert e in events;
      if e.Callback? { R.StepLoad(s, e); assert "" + "" == ""; } else { assert Load(News(s, e)) == []; }
      R.NewsLoadAppend(s, events);
      FreshIsSilent(setting, inverted, Step(s, e), events[1..]);
    }
  }

  /** What a callback asks of the user interface: to refresh the text shown and the button
      for a bracket, and the text again for a character keyed. */
  lemma CallbackRequests(s: State, e: Event)
    requires e.Callback?
    ensures var text := s.buff + s.newText;
      Step(s, e).awake
      == s.awake
         + (if text != "" && text[0] == '[' then [ShowText, ButtonOn]
            else if text != "" && text[0] == ']' then [ShowText, ButtonOff] else [])
         + (if exists x :: x in News(s, e) && x.Sent? && x.kind.Data? then [ShowText] else [])
  {
    var (s1, sending) := Sending(s, e.setting);
    var branch := BranchOf(s1, sending);
    var b := BranchEntries(branch, s1.shift, e.short, e.pause);
    assert forall x :: x in Control(s) ==> !x.Sent?;
    SendingRequests(s, e.setting);
    BranchRequests(s1, branch, e.short, e.pause);
    if branch.Keying? { assert b[|b| - 1] in Control(s) + b; }
  }

  lemma SendingRequests(s: State, setting: nat)
    ensures var text := s.buff + s.newText;
      Sending(s, setting).0.awake
      == s.awake + (if text != "" && text[0] == '[' then [ShowText, ButtonOn]
                    else if text != "" && text[0] == ']' then [ShowText, ButtonOff] else [])
  {
  }

  lemma BranchRequests(s: State, branch: Branch, short: bool, pause: real)
    requires branch.Keying? ==> s.buff != ""
    ensures BranchStep(s, branch, short, pause).awake == s.awake + if branch.Keying? then [ShowText] else []
    ensures var b := BranchEntries(branch, s.shift, short, pause);
      if branch.Keying? then b != [] && b[|b| - 1].Sent? && b[|b| - 1].kind.Data?
      else forall x :: x in b ==> !(x.Sent? && x.kind.Data?)
  {
    if branch.Keying? {
      SendDataFrame(s.(buff := s.buff[1..], awake := s.awake + [ShowText]), branch.c, short);
    }
  }

  // ---- The button --------------------------------------------------------

  /** The button once the queue has been delivered. */
  function Settled(awake: seq<Awake>, button: bool): bool {
    if awake == [] then button
    else Settled(awake[1..], if awake[0] == ButtonOn then true else if awake[0] == ButtonOff then false else button)
  }

  /** The last request in the queue that concerns the button. */
  function LastRequest(awake: seq<Awake>): Option<bool> {
    if awake == [] then None
    else if LastRequest(awake[1..]).Some? then LastRequest(awake[1..])
    else if awake[0] == ButtonOn then Some(true)
    else if awake[0] == ButtonOff then Some(false)
    else None
  }

  lemma {:induction false} SettledIsLast(awake: seq<Awake>, button: bool)
    ensures Settled(awake, button) == (match LastRequest(awake) case Some(on) => on case None => button)
  {
    if awake != [] {
      SettledIsLast(awake[1..], true);
      SettledIsLast(awake[1..], false);
    }
  }

  lemma {:induction false} SettledAppend(a: seq<Awake>, b: seq<Awake>, button: bool)
    ensures Settled(a + b, button) == Settled(b, Settled(a, button))
  {
    Front(a, b);
    if a != [] {
      SettledAppend(a[1..], b, if a[0] == ButtonOn then true else if a[0] == ButtonOff then false else button);
    }
  }

  lemma SettledTwo(a: seq<Awake>, x: Awake, button: bool)
    requires x != ShowText
    ensures Settled(a + [ShowText, x], button) == (x == ButtonOn)
    ensures Settled(a + [ShowText], button) == Settled(a, button)
  {
    SettledAppend(a, [ShowText, x], button);
    SettledAppend(a, [ShowText], button);
    assert [ShowText, x][1..] == [x] && [x][1..] == [] && [ShowText][1..] == [];
    var b := Settled(a, button);
    assert Settled([ShowText, x], b) == Settled([x], b) == (x == ButtonOn);
  }

  /** Once the queue is drained, the button will show the transmit state. */
  predicate Agreed(s: State) { Settled(s.awake, s.button) == s.process }

  /** A click that a request already in the queue is going to undo. */
  predicate Raced(s: State, e: Event) {
    e.Click? && LastRequest(s.awake) == Some(!e.on)
  }

  lemma CallbackAgrees(s: State, e: Event)
    requires e.Callback?
    ensures Agreed(Step(s, e)) <==> Agreed(s) || Control(s) != []
  {
    BracketsSwitch(s, e);
  }

  /** Exactly when button and transmit state agree after a step: a bracket makes them
      agree, a click does unless it is raced, nothing else changes it. */
  lemma StepAgrees(s: State, e: Event)
    ensures Agreed(Step(s, e)) <==>
      if e.Click? then !Raced(s, e)
      else Agreed(s) || (e.Callback? && Control(s) != [])
  {
    match e
    case Callback(setting, short, pause) => CallbackAgrees(s, e);
    case Click(on) =>
      SettledIsLast(s.awake, on);
    case _ =>
  }

  /** Button and transmit state according to the last step of a run that decides them:
      a click in favour unless it is raced, a bracket always.  `verdict` stands if no
      step does. */
  predicate LastVerdict(s: State, events: seq<Event>, verdict: bool)
    decreases |events|
  {
    if events == [] then verdict
    else
      var e := events[0];
      var v := if e.Click? then !Raced(s, e) else if e.Callback? && Control(s) != [] then true else verdict;
      LastVerdict(Step(s, e), events[1..], v)
  }

  /** Exactly when button and transmit state agree after a run. */
  lemma {:induction false} RunAgrees(s: State, events: seq<Event>)
    ensures Agreed(Run(s, events)) <==> LastVerdict(s, events, Agreed(s))
    decreases |events|
  {
    if events != [] {
      StepAgrees(s, events[0]);
      RunAgrees(Step(s, events[0]), events[1..]);
    }
  }

  /** No click of the run is raced. */
  predicate NoRace(s: State, events: seq<Event>)
    decreases |events|
  {
    events == [] || (!Raced(s, events[0]) && NoRace(Step(s, events[0]), events[1..]))
  }

  /** If no click is raced, the verdict is always in favour. */
  lemma {:induction false} UnracedVerdict(s: State, events: seq<Event>)
    requires NoRace(s, events)
    ensures LastVerdict(s, events, true)
    decreases |events|
  {
    if events != [] { UnracedVerdict(Step(s, events[0]), events[1..]); }
  }

  /** A `[` switches the transmitter on and asks for the button to be lit, a `]` the
      reverse, and any other callback leaves transmitter and button alone. */
  lemma BracketsSwitch(s: State, e: Event)
    requires e.Callback?
    ensures var s', text := Step(s, e), s.buff + s.newText;
      if StartsWith(text, '[') then s'.process && Settled(s'.awake, s'.button)
      else if StartsWith(text, ']') then !s'.process && !Settled(s'.awake, s'.button)
      else s'.ptt == s.ptt && s'.process == s.process && Settled(s'.awake, s'.button) == Settled(s.awake, s.button)
  {
    CallbackFrame(s, e);
    SendingSwitches(s, e.setting);
    var s1 := Sending(s, e.setting).0;
    SettledTwo(s1.awake, ButtonOn, s1.button);
  }

  lemma SendingSwitches(s: State, setting: nat)
    ensures var s1, text := Sending(s, setting).0, s.buff + s.newText;
      if StartsWith(text, '[') then s1.process && Settled(s1.awake, s1.button)
      else if StartsWith(text, ']') then !s1.process && !Settled(s1.awake, s1.button)
      else s1.ptt == s.ptt && s1.process == s.process && s1.awake == s.awake && s1.button == s.button
  {
    SettledTwo(s.awake, ButtonOn, s.button);
    SettledTwo(s.awake, ButtonOff, s.button);
  }

  predicate KeysLine(news: seq<Entry>) { exists x :: x in news && x.Sent? }

  /** A callback keys the line with the transmitter off exactly when the button is on
      and FSK_process is not, and no bracket decides otherwise. */
  lemma KeysUnpowered(s: State, e: Event)
    requires e.Callback?
    ensures KeysLine(News(s, e)) && !Step(s, e).process
       <==> Control(s) == [] && s.button && !s.process
  {
    CallbackFrame(s, e);
    var (s1, sending) := Sending(s, e.setting);
    var branch := BranchOf(s1, sending);
    var b := BranchEntries(branch, s1.shift, e.short, e.pause);
    assert News(s, e) == Control(s) + b;
    assert forall x :: x in Control(s) ==> !x.Sent?;
    if branch.Pausing? {
      assert forall x :: x in b ==> !x.Sent?;
    } else {
      assert b[|b| - 1].Sent?;
      assert b[|b| - 1] in Control(s) + b;
    }
  }

  /** After any run, with no button request waiting, a callback keys the line with the
      transmitter off if and only if the button is on, no bracket decides, and the last
      deciding step of the run was a raced click. */
  lemma PoweredWhenSettled(s: State, events: seq<Event>, e: Event)
    requires e.Callback? && LastRequest(Run(s, events).awake).None?
    ensures var t := Run(s, events);
      KeysLine(News(t, e)) && !Step(t, e).process
      <==> Control(t) == [] && t.button && !LastVerdict(s, events, Agreed(s))
  {
    var t := Run(s, events);
    RunAgrees(s, events);
    SettledIsLast(t.awake, t.button);
    KeysUnpowered(t, e);
  }

  /** So a run from the start without raced clicks never does. */
  lemma UnracedIsPowered(setting: nat, inverted: bool, events: seq<Event>, e: Event)
    requires NoRace(Init(setting, inverted), events) && e.Callback?
    requires LastRequest(Run(Init(setting, inverted), events).awake).None?
    ensures var s := Run(Init(setting, inverted), events); KeysLine(News(s, e)) ==> Step(s, e).process
  {
    PoweredWhenSettled(Init(setting, inverted), events, e);
    UnracedVerdict(Init(setting, inverted), events);
  }

  /** A raced click: the operator stops right after a `[`, the request to light the
      button is delivered afterwards, and the line is keyed with the transmitter off. */
  lemma RacedClick()
    ensures var s := Run(Init(1, false), [Add("["), Callback(1, true, 0.0), Click(false), Deliver, Deliver]);
      && s.awake == [] && s.button && !s.process
      && KeysLine(News(s, Callback(1, true, 0.0))) && !Step(s, Callback(1, true, 0.0)).process
  {
    var s0 := Init(1, false);
    var e := Callback(1, true, 0.0);
    var run := [Add("["), e, Click(false), Deliver, Deliver];
    var s1 := Step(s0, Add("["));
    var s2 := Step(s1, e);
    var s3 := Step(s2, Click(false));
    assert s2.awake == [ShowText, ButtonOn] && s2.process;
    assert run[1..] == [e, Click(false), Deliver, Deliver];
    assert run[1..][1..] == [Click(false), Deliver, Deliver];
    assert run[1..][1..][1..] == [Deliver, Deliver];
    assert Run(s0, run) == Run(s1, run[1..]) == Run(s2, run[1..][1..]) == Run(s3, run[1..][1..][1..]);
    DeliverBoth(s3);
    KeysUnpowered(Run(s0, run), e);
  }

  lemma DeliverBoth(s: State)
    requires s.awake == [ShowText, ButtonOn]
    ensures Run(s, [Deliver, Deliver]) == s.(awake := [], button := true)
  {
    var s1 := Step(s, Deliver);
    assert s.awake[1..] == [ButtonOn] && s1.awake[1..] == [];
    assert [Deliver, Deliver][1..] == [Deliver] && [Deliver][1..] == [];
    assert Run(s, [Deliver, Deliver]) == Run(s1, [Deliver]) == Run(Step(s1, Deliver), []);
  }

  // ---- Progress ----------------------------------------------------------

  function Idles(n: nat): T.Load { if n == 0 then [] else [None] + Idles(n - 1) }

  function Typed(s: string): T.Load { if s == "" then [] else [Some(s[0])] + Typed(s[1..]) }

  predicate Plain(s: string) { forall c :: c in s ==> !R.IsBracket(c) }

  /** With the button on and plain text waiting, as many callbacks as idles owed and
      characters waiting send exactly those, in that order, and empty the buffer. */
  lemma {:induction false} Drains(s: State, events: seq<Event>)
    requires s.button && Plain(s.buff + s.newText)
    requires forall e :: e in events ==> e.Callback?
    requires |events| == s.idles + |s.buff + s.newText|
    ensures Load(AllNews(s, events)) == Idles(s.idles) + Typed(s.buff + s.newText)
    ensures Run(s, events).buff + Run(s, events).newText == ""
    decreases |events|
  {
    if events != [] {
      var e, s1 := events[0], Step(s, events[0]);
      assert e in events;
      DrainStep(s, e);
      Drains(s1, events[1..]);
      R.NewsLoadAppend(s, events);
      DrainLoad(s.idles, s.buff + s.newText, Load(News(s, e)), Load(AllNews(s1, events[1..])),
                s1.idles, s1.buff + s1.newText);
    }
  }

  /** The first item of what is owed, and the rest. */
  lemma DrainLoad(n: nat, text: string, head: T.Load, tail: T.Load, n': nat, text': string)
    requires n > 0 || text != ""
    requires n > 0 ==> n' == n - 1 && text' == text && head == [None]
    requires n == 0 ==> n' == 0 && text' == text[1..] && head == [Some(text[0])]
    requires tail == Idles(n') + Typed(text')
    ensures head + tail == Idles(n) + Typed(text)
  {
  }

  lemma DrainStep(s: State, e: Event)
    requires s.button && Plain(s.buff + s.newText) && e.Callback?
    requires s.idles > 0 || s.buff + s.newText != ""
    ensures var s1, text := Step(s, e), s.buff + s.newText;
      && s1.button
      && (if s.idles > 0 then s1.buff + s1.newText == text && s1.idles == s.idles - 1 && Load(News(s, e)) == [None]
          else s1.buff + s1.newText == text[1..] && s1.idles == 0 && Load(News(s, e)) == [Some(text[0])])
  {
    R.StepLoad(s, e);
    var (s1, sending) := Sending(s, e.setting);
    var branch := BranchOf(s1, sending);
    var text := s.buff + s.newText;
    assert text != "" ==> text[0] in text;
    assert s1 == Merge(s) && sending;
    if branch.Keying? {
      SendDataFrame(s1.(buff := s1.buff[1..], awake := s1.awake + [ShowText]), branch.c, e.short);
    }
  }

  // ---- What a `[` and a fresh keyer send ------------------------------------

  function Deliveries(k: nat): seq<Event> { if k == 0 then [] else [Deliver] + Deliveries(k - 1) }

  /** As many deliveries as requests wait empty the queue and settle the button. */
  lemma {:induction false} DeliverAll(s: State)
    ensures Run(s, Deliveries(|s.awake|)) == s.(awake := [], button := Settled(s.awake, s.button))
    ensures AllNews(s, Deliveries(|s.awake|)) == []
    decreases |s.awake|
  {
    if s.awake != [] {
      var run := Deliveries(|s.awake|);
      assert run[0] == Deliver && run[1..] == Deliveries(|s.awake| - 1);
      DeliverAll(Step(s, Deliver));
    } else {
      assert s == s.(awake := []);
    }
  }

  lemma {:induction false} NewsAppend(s: State, a: seq<Event>, b: seq<Event>)
    ensures Run(s, a + b) == Run(Run(s, a), b)
    ensures AllNews(s, a + b) == AllNews(s, a) + AllNews(Run(s, a), b)
    decreases |a|
  {
    Front(a, b);
    if a != [] {
      NewsAppend(Step(s, a[0]), a[1..], b);
      Assoc(News(s, a[0]), AllNews(Step(s, a[0]), a[1..]), AllNews(Run(s, a), b));
    } else {
      assert [] + AllNews(s, b) == AllNews(s, b);
    }
  }

  /** The callback that finds the `[` already sends the first item. */
  lemma OpenStep(s: State, e: Event, text: string)
    requires e.Callback? && s.buff + s.newText == "[" + text && Plain(text)
    requires e.setting > 0 || text != ""
    ensures var s1 := Step(s, e);
      && Settled(s1.awake, s1.button)
      && (if e.setting > 0 then s1.buff + s1.newText == text && s1.idles == e.setting - 1 && Load(News(s, e)) == [None]
          else s1.buff + s1.newText == text[1..] && s1.idles == 0 && Load(News(s, e)) == [Some(text[0])])
  {
    R.StepLoad(s, e);
    BracketsSwitch(s, e);
    OpenSending(s, e.setting, text);
    var (s1, sending) := Sending(s, e.setting);
    var branch := BranchOf(s1, sending);
    R.BranchText(s1, branch, e.short, e.pause);
    OpenBranch(s1, branch, e.short, e.pause);
  }

  lemma OpenSending(s: State, setting: nat, text: string)
    requires s.buff + s.newText == "[" + text
    ensures var (s1, sending) := Sending(s, setting);
      sending && s1.buff == text && s1.newText == "" && s1.idles == setting
  {
    assert ("[" + text)[1..] == text;
  }

  lemma OpenBranch(s: State, branch: Branch, short: bool, pause: real)
    requires branch.Keying? ==> s.buff != ""
    ensures BranchStep(s, branch, short, pause).idles == if branch.Idling? && s.idles > 0 then s.idles - 1 else s.idles
  {
    if branch.Keying? {
      SendDataFrame(s.(buff := s.buff[1..], awake := s.awake + [ShowText]), branch.c, short);
    }
  }

  /** A `[` with plain text behind it: one callback, the delivery of what it asks of the user
      interface, and as many more callbacks as there are items, send exactly as many idles as
      are configured and then the text. */
  lemma OpenSends(s: State, n: nat, short: bool, pause: real, text: string, events: seq<Event>)
    requires s.buff + s.newText == "[" + text && Plain(text) && n + |text| > 0
    requires forall e :: e in events ==> e.Callback?
    requires |events| + 1 == n + |text|
    ensures var e := Callback(n, short, pause);
      var run := [e] + (Deliveries(|Step(s, e).awake|) + events);
      && Load(AllNews(s, run)) == Idles(n) + Typed(text)
      && Run(s, run).buff + Run(s, run).newText == "" && Run(s, run).process
  {
    var e := Callback(n, short, pause);
    var s1 := Step(s, e);
    var k := Deliveries(|s1.awake|);
    var s2 := s1.(awake := [], button := Settled(s1.awake, s1.button));
    OpenStep(s, e, text);
    DeliverAll(s1);
    NewsAppend(s1, k, events);
    Drains(s2, events);
    var run := [e] + (k + events);
    assert run[0] == e && run[1..] == k + events;
    LoadAppend(News(s, e), AllNews(s1, k + events));
    assert [] + AllNews(s2, events) == AllNews(s2, events);
    DrainLoad(n, text, Load(News(s, e)), Load(AllNews(s2, events)), s2.idles, s2.buff + s2.newText);
    BracketsSwitch(s, e);
    DrainKeepsProcess(s2, events);
  }

  lemma {:induction false} DrainKeepsProcess(s: State, events: seq<Event>)
    requires s.process && Plain(s.buff + s.newText)
    requires forall e :: e in events ==> e.Callback?
    ensures Run(s, events).process
    decreases |events|
  {
    if events != [] {
      var e := events[0];
      assert e in events;
      var text := s.buff + s.newText;
      assert text != "" ==> text[0] in text;
      BracketsSwitch(s, e);
      StepKeepsPlain(s, e);
      DrainKeepsProcess(Step(s, e), events[1..]);
    }
  }

  lemma StepKeepsPlain(s: State, e: Event)
    requires e.Callback? && Plain(s.buff + s.newText)
    ensures Plain(Step(s, e).buff + Step(s, e).newText)
  {
    var (s1, sending) := Sending(s, e.setting);
    var text := s.buff + s.newText;
    assert text != "" ==> text[0] in text;
    assert s1 == Merge(s);
    R.BranchText(s1, BranchOf(s1, sending), e.short, e.pause);
  }

  /** A fresh keyer owes the configured idles too: text and a click on the button send them
      and the text. */
  lemma FreshSends(n: nat, inverted: bool, text: string, events: seq<Event>)
    requires Plain(text) && forall e :: e in events ==> e.Callback?
    requires |events| == n + |text|
    ensures Load(AllNews(Init(n, inverted), [Add(text), Click(true)] + events)) == Idles(n) + Typed(text)
  {
    var s := Init(n, inverted);
    var s2 := Step(Step(s, Add(text)), Click(true));
    var two := [Add(text), Click(true)];
    assert two[1..] == [Click(true)] && [Click(true)][1..] == [];
    assert Run(s, two) == Run(Step(s, Add(text)), [Click(true)]) == Run(s2, []) == s2;
    NewsAppend(s, two, events);
    assert AllNews(Step(s, Add(text)), [Click(true)]) == [] + AllNews(s2, []) == [];
    assert AllNews(s, two) == [] + [] == [];
    assert "" + ("" + text) == text;
    Drains(s2, events);
    assert [] + AllNews(s2, events) == AllNews(s2, events);
  }
}
