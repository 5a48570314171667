/** The FSK keyer of `src/fskio/fsk.cxx` as a state machine: the sending thread,
    text arriving from other threads, the operator's button and the user
    interface's queue of awaited callbacks, in any interleaving. */
module Fsk {
  import opened Common
  import opened Baudot
  import opened Line
  import T = Transducer

  /** `Fl::awake` requests that have not been delivered yet. */
  datatype Awake = ShowText | ButtonOn | ButtonOff

  datatype Kind = Idle | Shift | Data(c: char)

  /** The history of a run, in order: what was put on the air and what became of
      the text. */
  datatype Entry =
    | Sent(kind: Kind, bits: nat, short: bool)
    | Paused(span: real)
    | Opened                   // '[' consumed
    | Stopped(text: string)    // ']' met: it and everything behind it discarded
    | Cleared(text: string)    // FSK_clear_text

  datatype State = State(
    newText: string,      // FSK_new_text
    buff: string,         // str_buff
    shift: Case,          // shift_state
    idles: nat,
    process: bool,        // FSK_process
    button: bool,         // btn_fskioSEND
    awake: seq<Awake>,
    ptt: seq<bool>,       // doPTT calls
    inverted: bool,       // FSK_INVERTED
    pin: bool,            // the level of the key line
    wave: seq<Seg>,       // the levels the line has been held at
    log: seq<Entry>)

  /** One atomic step.  A callback reads the idle setting and the stop-bit setting
      when it runs; `pause` is how long the thread sleeps if it is not sending. */
  datatype Event =
    | Callback(setting: nat, short: bool, pause: real)
    | Add(text: string)
    | Clear
    | Click(on: bool)
    | Deliver

  /** The key line is at the level of MARK, as between frames. */
  predicate RestsAtMark(s: State) { s.pin == Pin(MARK, s.inverted) }

  function Init(setting: nat, inverted: bool): State {
    State("", "", Figures, setting, false, false, [], [], inverted, Pin(MARK, inverted), [], [])
  }

  function SendText(s: State, on: bool): State {
    if s.process == on then s else s.(process := on, ptt := s.ptt + [on])
  }

  function Merge(s: State): State {
    s.(buff := s.buff + s.newText, newText := "")
  }

  function StartsWith(s: string, c: char): bool { s != "" && s[0] == c }

  function Sending(s0: State, setting: nat): (State, bool) {
    var s := Merge(s0);
    if StartsWith(s.buff, '[') then
      var s1 := s.(buff := s.buff[1..], awake := s.awake + [ShowText, ButtonOn]);
      (SendText(s1, true).(idles := setting, log := s.log + [Opened]), true)
    else if StartsWith(s.buff, ']') then
      var s1 := s.(buff := "", awake := s.awake + [ShowText, ButtonOff], log := s.log + [Stopped(s.buff)]);
      (SendText(s1, false), false)
    else (s, s.button)
  }

  function SendBaudot(s: State, kind: Kind, bits: nat, short: bool): State {
    s.(shift := if bits == LTRS then Letters else if bits == FIGS then Figures else s.shift,
       pin := Pin(MARK, s.inverted),
       wave := s.wave + FrameSegs(bits, short, s.inverted),
       log := s.log + [Sent(kind, bits, short)])
  }

  /** The data branch: a shift code if the character is in the other case, then
      the character. */
  function SendData(s: State, c: char, short: bool): State { SendCode(s, c, Encode(c, s.shift), short) }

  function SendCode(s: State, c: char, e: Code, short: bool): State {
    var s1 := if e.shift == s.shift then s
              else SendBaudot(s.(shift := e.shift), Shift, T.ShiftCode(e.shift), short);
    SendBaudot(s1, Data(c), e.bits, short)
  }

  /** Which of its branches a callback takes once `sending` has looked at the text. */
  datatype Branch = Pausing | Idling | Keying(c: char)

  function BranchOf(s: State, sending: bool): Branch {
    if !sending then Pausing else if s.buff == "" || s.idles > 0 then Idling else Keying(s.buff[0])
  }

  function BranchStep(s: State, branch: Branch, short: bool, pause: real): State
    requires branch.Keying? ==> s.buff != ""
  {
    match branch
    case Pausing => s.(wave := s.wave + [Seg(s.pin, pause)], log := s.log + [Paused(pause)])
    case Idling => SendBaudot(s.(idles := if s.idles > 0 then s.idles - 1 else 0), Idle, LTRS, short)
    case Keying(c) => SendData(s.(buff := s.buff[1..], awake := s.awake + [ShowText]), c, short)
  }

  function CallbackStep(s: State, setting: nat, short: bool, pause: real): State {
    var (s1, sending) := Sending(s, setting);
    BranchStep(s1, BranchOf(s1, sending), short, pause)
  }

  function Step(s: State, e: Event): State {
    match e
    case Callback(setting, short, pause) => CallbackStep(s, setting, short, pause)
    case Add(text) => s.(newText := s.newText + text)
    case Clear => s.(buff := "", log := s.log + [Cleared(s.buff)])
    case Click(on) => SendText(s.(button := on), on)
    case Deliver =>
      if s.awake == [] then s
      else s.(awake := s.awake[1..],
              button := if s.awake[0] == ButtonOn then true
                        else if s.awake[0] == ButtonOff then false else s.button)
  }

  function Run(s: State, events: seq<Event>): State
    decreases |events|
  {
    if events == [] then s else Run(Step(s, events[0]), events[1..])
  }

  // ---- Views of the history ----------------------------------------------

  function LineOf(e: Entry): seq<LineEvent> {
    match e
    case Sent(_, bits, short) => [Frame(bits, short)]
    case Paused(span) => [Rest(span)]
    case _ => []
  }

  function OnLine(log: seq<Entry>): seq<LineEvent> {
    if log == [] then [] else LineOf(log[0]) + OnLine(log[1..])
  }

  function LoadOf(e: Entry): T.Load {
    match e
    case Sent(Idle, _, _) => [None]
    case Sent(Data(c), _, _) => [Some(c)]
    case _ => []
  }

  /** Idles and data characters, in order. */
  function Load(log: seq<Entry>): T.Load {
    if log == [] then [] else LoadOf(log[0]) + Load(log[1..])
  }

  function TextOf(e: Entry): string {
    match e
    case Sent(Data(c), _, _) => [c]
    case Opened => "["
    case Stopped(text) => text
    case Cleared(text) => text
    case _ => ""
  }

  /** All text that has left the buffer, in order. */
  function Gone(log: seq<Entry>): string {
    if log == [] then "" else TextOf(log[0]) + Gone(log[1..])
  }

  function AddedBy(e: Event): string { if e.Add? then e.text else "" }

  /** All text ever handed to the keyer. */
  function Added(events: seq<Event>): string {
    if events == [] then "" else AddedBy(events[0]) + Added(events[1..])
  }

  lemma {:induction false} OnLineAppend(a: seq<Entry>, b: seq<Entry>)
    ensures OnLine(a + b) == OnLine(a) + OnLine(b)
  {
    Front(a, b);
    if a != [] {
      OnLineAppend(a[1..], b);
      Assoc(LineOf(a[0]), OnLine(a[1..]), OnLine(b));
    }
  }

  lemma {:induction false} LoadAppend(a: seq<Entry>, b: seq<Entry>)
    ensures Load(a + b) == Load(a) + Load(b)
  {
    Front(a, b);
    if a != [] {
      LoadAppend(a[1..], b);
      Assoc(LoadOf(a[0]), Load(a[1..]), Load(b));
    }
  }

  lemma {:induction false} GoneAppend(a: seq<Entry>, b: seq<Entry>)
    ensures Gone(a + b) == Gone(a) + Gone(b)
  {
    Front(a, b);
    if a != [] {
      GoneAppend(a[1..], b);
      Assoc(TextOf(a[0]), Gone(a[1..]), Gone(b));
    }
  }

  // ---- The line in every run ----------------------------------------------

  /** From `s` to `s'` the history grew by `news`, and a line that rested at MARK was
      driven with the frames of `news`, no more and no less, and rests at MARK again. */
  predicate Drives(s: State, s': State, news: seq<Entry>) {
    && s'.inverted == s.inverted
    && s'.log == s.log + news
    && (RestsAtMark(s) ==> RestsAtMark(s') && s'.wave == s.wave + Wave(OnLine(news), s.inverted))
  }

  /** The codes of `news` are what the transducer makes of its load. */
  predicate Keys(news: seq<Entry>, shift: Case, shift': Case) {
    && FiveBits(OnLine(news))
    && Codes(OnLine(news)) == T.Key(Load(news), shift)
    && shift' == T.ShiftAfter(Load(news), shift)
  }

  predicate Grows(s: State, s': State, news: seq<Entry>) {
    Drives(s, s', news) && Keys(news, s.shift, s'.shift)
  }

  lemma DrivesTwice(s: State, s': State, s'': State, a: seq<Entry>, b: seq<Entry>)
    requires Drives(s, s', a) && Drives(s', s'', b)
    ensures Drives(s, s'', a + b)
  {
    OnLineAppend(a, b);
    WaveAppend(OnLine(a), OnLine(b), s.inverted);
    Assoc(s.log, a, b);
    Assoc(s.wave, Wave(OnLine(a), s.inverted), Wave(OnLine(b), s.inverted));
  }

  lemma KeysTwice(a: seq<Entry>, b: seq<Entry>, k: Case, k': Case, k'': Case)
    requires Keys(a, k, k') && Keys(b, k', k'')
    ensures Keys(a + b, k, k'')
  {
    OnLineAppend(a, b);
    LoadAppend(a, b);
    CodesAppend(OnLine(a), OnLine(b));
    T.KeyAppend(Load(a), Load(b), k);
  }

  lemma SendDrives(s: State, kind: Kind, bits: nat, short: bool)
    ensures Drives(s, SendBaudot(s, kind, bits, short), [Sent(kind, bits, short)])
    ensures OnLine([Sent(kind, bits, short)]) == [Frame(bits, short)]
    ensures Codes([Frame(bits, short)]) == [bits]
  {
  }

  lemma IdleGrows(s: State, short: bool)
    ensures Grows(s, SendBaudot(s, Idle, LTRS, short), [Sent(Idle, LTRS, short)])
  {
  }

  function DataEntries(c: char, shift: Case, short: bool): seq<Entry> {
    var e := Encode(c, shift);
    (if e.shift == shift then [] else [Sent(Shift, T.ShiftCode(e.shift), short)]) + [Sent(Data(c), e.bits, short)]
  }

  lemma DataLoad(c: char, shift: Case, short: bool)
    ensures Load(DataEntries(c, shift, short)) == [Some(c)]
    ensures Gone(DataEntries(c, shift, short)) == [c]
    ensures Keys(DataEntries(c, shift, short), shift, Encode(c, shift).shift)
  {
    EncodePrints(c, shift);
    var e := Encode(c, shift);
    DataViews(c, e, shift, short);
    var load: T.Load := [Some(c)];
    assert load[1..] == [];
    assert T.Key(load, shift) == T.WithShift(e, shift) + [];
    assert T.ShiftAfter(load, shift) == e.shift;
  }

  lemma DataViews(c: char, e: Code, shift: Case, short: bool)
    requires e.bits < 32
    ensures var news := (if e.shift == shift then [] else [Sent(Shift, T.ShiftCode(e.shift), short)])
                        + [Sent(Data(c), e.bits, short)];
      && Load(news) == [Some(c)] && Gone(news) == [c]
      && Codes(OnLine(news)) == T.WithShift(e, shift) && FiveBits(OnLine(news))
  {
    var a, b := [Sent(Shift, T.ShiftCode(e.shift), short)], [Sent(Data(c), e.bits, short)];
    assert a[1..] == [] && b[1..] == [];
    assert OnLine(b) == [Frame(e.bits, short)] && OnLine(b)[1..] == [];
    assert Codes(OnLine(b)) == [e.bits];
    if e.shift == shift {
      assert [] + b == b;
    } else {
      LoadAppend(a, b);
      GoneAppend(a, b);
      OnLineAppend(a, b);
      assert OnLine(a) == [Frame(T.ShiftCode(e.shift), short)] && OnLine(a)[1..] == [];
      CodesAppend(OnLine(a), OnLine(b));
    }
  }

  /** Sending a character touches only the case, the line and the history. */
  lemma SendDataFrame(s: State, c: char, short: bool)
    ensures var d := SendData(s, c, short); d == s.(shift := d.shift, pin := d.pin, wave := d.wave, log := d.log)
  {
  }

  lemma DataGrows(s: State, c: char, short: bool)
    ensures Grows(s, SendData(s, c, short), DataEntries(c, s.shift, short))
  {
    var e := Encode(c, s.shift);
    var b := [Sent(Data(c), e.bits, short)];
    DataLoad(c, s.shift, short);
    EncodePrints(c, s.shift);
    if e.shift == s.shift {
      SendDrives(s, Data(c), e.bits, short);
    } else {
      var s0 := s.(shift := e.shift);
      var s1 := SendBaudot(s0, Shift, T.ShiftCode(e.shift), short);
      var a := [Sent(Shift, T.ShiftCode(e.shift), short)];
      SendDrives(s0, Shift, T.ShiftCode(e.shift), short);
      SendDrives(s1, Data(c), e.bits, short);
      DrivesTwice(s0, s1, SendBaudot(s1, Data(c), e.bits, short), a, b);
    }
  }

  /** The entry `sending` itself adds. */
  function Control(s: State): seq<Entry> {
    var text := s.buff + s.newText;
    if StartsWith(text, '[') then [Opened] else if StartsWith(text, ']') then [Stopped(text)] else []
  }

  function BranchEntries(branch: Branch, shift: Case, short: bool, pause: real): seq<Entry> {
    match branch
    case Pausing => [Paused(pause)]
    case Idling => [Sent(Idle, LTRS, short)]
    case Keying(c) => DataEntries(c, shift, short)
  }

  /** The entries a step adds. */
  function News(s: State, e: Event): seq<Entry> {
    match e
    case Callback(setting, short, pause) =>
      var (s1, sending) := Sending(s, setting);
      Control(s) + BranchEntries(BranchOf(s1, sending), s1.shift, short, pause)
    case Clear => [Cleared(s.buff)]
    case _ => []
  }

  lemma ControlGrows(s: State, setting: nat)
    ensures Grows(s, Sending(s, setting).0, Control(s))
    ensures Sending(s, setting).0.shift == s.shift
  {
    ControlIsSilent(s);
    var s1 := Sending(s, setting).0;
    assert s1 == s.(buff := s1.buff, newText := "", idles := s1.idles, process := s1.process, awake := s1.awake,
                    ptt := s1.ptt, log := s.log + Control(s));
  }

  lemma ControlIsSilent(s: State)
    ensures OnLine(Control(s)) == [] && Load(Control(s)) == []
  {
    assert |Control(s)| == 1 ==> Control(s)[1..] == [];
  }

  lemma PauseGrows(s: State, pause: real)
    ensures Grows(s, s.(wave := s.wave + [Seg(s.pin, pause)], log := s.log + [Paused(pause)]), [Paused(pause)])
  {
  }

  lemma BranchGrows(s: State, branch: Branch, short: bool, pause: real)
    requires branch.Keying? ==> s.buff != ""
    ensures Grows(s, BranchStep(s, branch, short, pause), BranchEntries(branch, s.shift, short, pause))
  {
    match branch
    case Pausing => PauseGrows(s, pause);
    case Idling => IdleGrows(s.(idles := if s.idles > 0 then s.idles - 1 else 0), short);
    case Keying(c) => DataGrows(s.(buff := s.buff[1..], awake := s.awake + [ShowText]), c, short);
  }

  lemma CallbackGrows(s: State, setting: nat, short: bool, pause: real)
    ensures Grows(s, CallbackStep(s, setting, short, pause), News(s, Callback(setting, short, pause)))
  {
    var (s1, sending) := Sending(s, setting);
    var s2, branch := CallbackStep(s, setting, short, pause), BranchOf(s1, sending);
    ControlGrows(s, setting);
    BranchGrows(s1, branch, short, pause);
    DrivesTwice(s, s1, s2, Control(s), BranchEntries(branch, s1.shift, short, pause));
    KeysTwice(Control(s), BranchEntries(branch, s1.shift, short, pause), s.shift, s1.shift, s2.shift);
  }

  lemma StepGrows(s: State, e: Event)
    ensures Grows(s, Step(s, e), News(s, e))
  {
    match e
    case Callback(setting, short, pause) => CallbackGrows(s, setting, short, pause);
    case Clear => assert [Cleared(s.buff)][1..] == []; assert s.wave + [] == s.wave;
    case _ => assert s.wave + [] == s.wave && s.log + [] == s.log;
  }

  /** The entries a run adds. */
  function AllNews(s: State, events: seq<Event>): seq<Entry>
    decreases |events|
  {
    if events == [] then [] else News(s, events[0]) + AllNews(Step(s, events[0]), events[1..])
  }

  /** Every interleaving of the sender is the transducer: in any run from any state in
      which the line rests at MARK it is driven with exactly the codes of the run's load. */
  lemma {:induction false} RunGrows(s: State, events: seq<Event>)
    ensures Grows(s, Run(s, events), AllNews(s, events))
    decreases |events|
  {
    if events == [] {
      assert s.wave + [] == s.wave && s.log + [] == s.log;
    } else {
      var s1 := Step(s, events[0]);
      StepGrows(s, events[0]);
      RunGrows(s1, events[1..]);
      var a, b := News(s, events[0]), AllNews(s1, events[1..]);
      DrivesTwice(s, s1, Run(s, events), a, b);
      KeysTwice(a, b, s.shift, s1.shift, Run(s, events).shift);
    }
  }
}
