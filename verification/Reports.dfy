/** The input report queue of `src/cmedia/hid_mac.cxx`, under its mutex: a callback
    appends reports and drops the oldest when too many wait, readers take the first. */
module Reports {
  import opened Common

  type Data = seq<Byte>

  /** How many reports wait at most: the callback counts the links it follows, before
      it appends, and drops the first report when there were more than 30. */
  const CAPACITY: nat := 32

  /** How a report left the queue. */
  datatype Fate = Delivered(length: nat, bytes: Data) | Dropped | Drained

  /** The queue, the two flags a reader looks at, and the history: all reports that ever
      arrived and the fates of those that left, in order. */
  datatype State = State(queue: seq<Data>, disconnected: bool, shutdown: bool,
                         arrived: seq<Data>, fates: seq<Fate>)

  datatype Wake = Signalled | TimedOut | Error

  /** The critical sections, in the order in which they get the mutex.  A blocking read
      begins with `Read` and, while it waits, goes on with `Woken`. */
  datatype Event =
    | Arrive(report: Data)
    | Read(length: nat, milliseconds: int)
    | Woken(length: nat, timed: bool, wake: Wake)
    | Disconnect
    | Shutdown
    | Close

  /** What a read returns: bytes, 0, or -1; or it goes to sleep. */
  datatype Outcome = Bytes(bytes: Data) | Nothing | Failure | Waits

  const INIT := State([], false, false, [], [])

  /** The part of a report that fits the reader's buffer. */
  function Fit(report: Data, length: nat): Data {
    if length < |report| then report[..length] else report
  }

  function Pop(s: State, fate: Fate): State
    requires s.queue != []
  {
    s.(queue := s.queue[1..], fates := s.fates + [fate])
  }

  function ArriveStep(s: State, report: Data): State {
    var s1 := s.(queue := s.queue + [report], arrived := s.arrived + [report]);
    if |s.queue| >= CAPACITY then Pop(s1, Dropped) else s1
  }

  function Deliver(s: State, length: nat): (State, Outcome)
    requires s.queue != []
  {
    var bytes := Fit(s.queue[0], length);
    (Pop(s, Delivered(length, bytes)), Bytes(bytes))
  }

  function ReadStep(s: State, length: nat, milliseconds: int): (State, Outcome) {
    if s.queue != [] then Deliver(s, length)
    else if s.disconnected || s.shutdown then (s, Failure)
    else if milliseconds == -1 || milliseconds > 0 then (s, Waits)
    else (s, Nothing)
  }

  /** After the condition variable returns to a sleeping reader. */
  function WokenStep(s: State, length: nat, timed: bool, wake: Wake): (State, Outcome) {
    if wake != Signalled then (s, if timed && wake == TimedOut then Nothing else Failure)
    else if s.shutdown || s.disconnected then (s, Failure)
    else if s.queue != [] then Deliver(s, length)
    else (s, Waits)
  }

  function CloseStep(s: State): State
    decreases |s.queue|
  {
    if s.queue == [] then s else CloseStep(Pop(s, Drained))
  }

  function Step(s: State, e: Event): State {
    match e
    case Arrive(report) => ArriveStep(s, report)
    case Read(length, milliseconds) => ReadStep(s, length, milliseconds).0
    case Woken(length, timed, wake) => WokenStep(s, length, timed, wake).0
    case Disconnect => s.(disconnected := true)
    case Shutdown => s.(shutdown := true)
    case Close => CloseStep(s.(shutdown := true))
  }

  function Run(s: State, events: seq<Event>): State
    decreases |events|
  {
    if events == [] then s else Run(Step(s, events[0]), events[1..])
  }

  // ---- Every run -------------------------------------------------------------

  predicate FateFits(fate: Fate, report: Data) {
    fate.Delivered? ==> fate.bytes == Fit(report, fate.length)
  }

  /** The n-th report to leave is the n-th that arrived, what is left is the rest, in
      order, and a reader got as much of its report as fitted. */
  predicate InOrder(s: State) {
    && |s.fates| <= |s.arrived|
    && s.queue == s.arrived[|s.fates|..]
    && forall i :: 0 <= i < |s.fates| ==> FateFits(s.fates[i], s.arrived[i])
  }

  predicate Accounted(s: State) { InOrder(s) && |s.queue| <= CAPACITY }

  lemma PopInOrder(s: State, fate: Fate)
    requires s.queue != [] && InOrder(s) && FateFits(fate, s.queue[0])
    ensures InOrder(Pop(s, fate))
  {
    assert s.queue[0] == s.arrived[|s.fates|];
    assert Pop(s, fate).queue == s.arrived[|s.fates| + 1..];
  }

  lemma ArriveAccounted(s: State, report: Data)
    requires Accounted(s)
    ensures Accounted(ArriveStep(s, report))
  {
    var s1 := s.(queue := s.queue + [report], arrived := s.arrived + [report]);
    assert s1.queue == s1.arrived[|s1.fates|..];
    if |s.queue| >= CAPACITY { PopInOrder(s1, Dropped); }
  }

  lemma {:induction false} CloseAccounted(s: State)
    requires Accounted(s)
    ensures Accounted(CloseStep(s)) && CloseStep(s).queue == []
    ensures CloseStep(s).arrived == s.arrived && |CloseStep(s).fates| == |s.arrived|
    decreases |s.queue|
  {
    if s.queue != [] {
      PopInOrder(s, Drained);
      CloseAccounted(Pop(s, Drained));
    }
  }

  lemma StepAccounted(s: State, e: Event)
    requires Accounted(s)
    ensures Accounted(Step(s, e))
  {
    match e
    case Arrive(report) => ArriveAccounted(s, report);
    case Read(length, milliseconds) =>
      if s.queue != [] { PopInOrder(s, Delivered(length, Fit(s.queue[0], length))); }
    case Woken(length, timed, wake) =>
      if s.queue != [] { PopInOrder(s, Delivered(length, Fit(s.queue[0], length))); }
    case Close => CloseAccounted(s.(shutdown := true));
    case _ =>
  }

  /** In every interleaving: at most 32 reports wait, they are the last ones that
      arrived, and all before them have left in order, each once. */
  lemma {:induction false} RunAccounted(s: State, events: seq<Event>)
    requires Accounted(s)
    ensures Accounted(Run(s, events)) && |Run(s, events).queue| <= 32
    ensures s.arrived <= Run(s, events).arrived && s.fates <= Run(s, events).fates
    decreases |events|
  {
    if events != [] {
      StepAccounted(s, events[0]);
      StepExtends(s, events[0]);
      RunAccounted(Step(s, events[0]), events[1..]);
    }
  }

  /** Fates are never taken back and arrivals never forgotten. */
  lemma StepExtends(s: State, e: Event)
    ensures s.arrived <= Step(s, e).arrived && s.fates <= Step(s, e).fates
  {
    if e.Close? { CloseExtends(s.(shutdown := true)); }
  }

  lemma {:induction false} CloseExtends(s: State)
    ensures s.arrived == CloseStep(s).arrived && s.fates <= CloseStep(s).fates
    ensures Dropped !in CloseStep(s).fates[|s.fates|..]
    decreases |s.queue|
  {
    if s.queue != [] {
      var s1 := Pop(s, Drained);
      CloseExtends(s1);
      assert CloseStep(s).fates[|s.fates|..] == [Drained] + CloseStep(s1).fates[|s1.fates|..];
    } else {
      assert s.fates[|s.fates|..] == [];
    }
  }

  /** A report is dropped unread exactly when another arrives while 32 wait. */
  lemma DropsOnlyWhenFull(s: State, e: Event)
    requires Accounted(s)
    ensures s.fates <= Step(s, e).fates
    ensures Dropped in Step(s, e).fates[|s.fates|..] <==> e.Arrive? && |s.queue| == 32
  {
    StepExtends(s, e);
    var news := Step(s, e).fates[|s.fates|..];
    if e.Close? {
      CloseExtends(s.(shutdown := true));
    } else if |news| > 0 {
      assert news == [Step(s, e).fates[|s.fates|]];
    }
  }

  /** What the readers of a run were given, in order. */
  function Heard(fates: seq<Fate>): seq<Data> {
    if fates == [] then []
    else (if fates[0].Delivered? then [fates[0].bytes] else []) + Heard(fates[1..])
  }

  lemma {:induction false} HeardAll(arrived: seq<Data>, fates: seq<Fate>)
    requires |fates| <= |arrived|
    requires forall i :: 0 <= i < |fates| ==> fates[i].Delivered? && FateFits(fates[i], arrived[i])
    requires forall i :: 0 <= i < |fates| ==> fates[i].length >= |arrived[i]|
    ensures Heard(fates) + arrived[|fates|..] == arrived
  {
    if fates != [] {
      HeardAll(arrived[1..], fates[1..]);
      assert fates[0].bytes == arrived[0];
      var left := arrived[|fates|..];
      assert arrived[1..][|fates[1..]|..] == left;
      Assoc([arrived[0]], Heard(fates[1..]), left);
      assert [arrived[0]] + arrived[1..] == arrived;
    } else {
      assert arrived[0..] == arrived;
    }
  }

  function Arrivals(events: seq<Event>): seq<Data> {
    if events == [] then [] else (if events[0].Arrive? then [events[0].report] else []) + Arrivals(events[1..])
  }

  lemma {:induction false} RunArrivals(s: State, events: seq<Event>)
    ensures Run(s, events).arrived == s.arrived + Arrivals(events)
    decreases |events|
  {
    if events != [] {
      var e := events[0];
      if e.Close? { CloseExtends(s.(shutdown := true)); }
      RunArrivals(Step(s, e), events[1..]);
      assert Step(s, e).arrived == s.arrived + if e.Arrive? then [e.report] else [];
    }
  }

  lemma {:induction false} CloseFlags(s: State)
    ensures CloseStep(s).disconnected == s.disconnected && CloseStep(s).shutdown == s.shutdown
    decreases |s.queue|
  {
    if s.queue != [] { CloseFlags(Pop(s, Drained)); }
  }

  /** The flags are never taken back: the device is disconnected or shut down exactly if it
      was, or was made so in the run, and a close shuts it down too. */
  lemma {:induction false} RunFlags(s: State, events: seq<Event>)
    ensures Run(s, events).disconnected <==> s.disconnected || Disconnect in events
    ensures Run(s, events).shutdown <==> s.shutdown || Shutdown in events || Close in events
    decreases |events|
  {
    if events != [] {
      var e := events[0];
      CloseFlags(s.(shutdown := true));
      RunFlags(Step(s, e), events[1..]);
      assert forall d :: d in events <==> d == e || d in events[1..];
    }
  }

  /** What a read returns.  If a report waits: as many of the first bytes of the first
      arrival still there as fit.  Otherwise -1 exactly if the device is disconnected or
      shut down; else the reader sleeps exactly for -1 or a positive timeout, and gets 0 for
      any other. */
  lemma ReadReturns(s: State, length: nat, milliseconds: int)
    requires Accounted(s)
    ensures var (s', outcome) := ReadStep(s, length, milliseconds);
      if s.queue != [] then
        && |s.fates| < |s.arrived| && |s'.fates| == |s.fates| + 1
        && var report := s.arrived[|s.fates|];
           outcome == Bytes(report[..if length < |report| then length else |report|])
      else
        && s' == s
        && (outcome == Failure <==> s.disconnected || s.shutdown)
        && (outcome == Waits <==> !s.disconnected && !s.shutdown && (milliseconds == -1 || milliseconds > 0))
        && (outcome == Nothing <==> !s.disconnected && !s.shutdown && (milliseconds < -1 || milliseconds == 0))
  {
  }

  /** What a reader gets when the condition variable returns: 0 for a timeout it asked for,
      -1 for any other error or if the device is disconnected or shut down, even with a
      report waiting; else bytes as above, or it sleeps on. */
  lemma WokenReturns(s: State, length: nat, timed: bool, wake: Wake)
    requires Accounted(s)
    ensures var (s', outcome) := WokenStep(s, length, timed, wake);
      && (outcome == Nothing <==> wake == TimedOut && timed)
      && (outcome == Failure <==> wake == Error || (wake == TimedOut && !timed)
                                  || (wake == Signalled && (s.disconnected || s.shutdown)))
      && (outcome == Waits <==> wake == Signalled && !s.disconnected && !s.shutdown && s.queue == [])
      && (outcome.Bytes? ==>
           && |s.fates| < |s.arrived| && |s'.fates| == |s.fates| + 1
           && var report := s.arrived[|s.fates|];
              outcome.bytes == report[..if length < |report| then length else |report|])
      && (!outcome.Bytes? ==> s' == s)
  {
  }

  /** What a step hands to a reader. */
  function Outcomes(s: State, e: Event): seq<Outcome> {
    match e
    case Read(length, milliseconds) => [ReadStep(s, length, milliseconds).1]
    case Woken(length, timed, wake) => [WokenStep(s, length, timed, wake).1]
    case _ => []
  }

  /** The bytes that the reads of a run returned, in order. */
  function Returned(s: State, events: seq<Event>): seq<Data>
    decreases |events|
  {
    if events == [] then []
    else
      var o := Outcomes(s, events[0]);
      (if |o| == 1 && o[0].Bytes? then [o[0].bytes] else []) + Returned(Step(s, events[0]), events[1..])
  }

  lemma {:induction false} HeardAppend(a: seq<Fate>, b: seq<Fate>)
    ensures Heard(a + b) == Heard(a) + Heard(b)
  {
    Front(a, b);
    if a != [] {
      HeardAppend(a[1..], b);
      Assoc(if a[0].Delivered? then [a[0].bytes] else [], Heard(a[1..]), Heard(b));
    }
  }

  lemma {:induction false} CloseSilent(s: State)
    ensures Heard(CloseStep(s).fates) == Heard(s.fates)
    decreases |s.queue|
  {
    if s.queue != [] {
      CloseSilent(Pop(s, Drained));
      HeardAppend(s.fates, [Drained]);
      assert [Drained][1..] == [];
    }
  }

  lemma StepReturns(s: State, e: Event)
    ensures var o := Outcomes(s, e);
      Heard(Step(s, e).fates) == Heard(s.fates) + if |o| == 1 && o[0].Bytes? then [o[0].bytes] else []
  {
    if e.Close? {
      CloseSilent(s.(shutdown := true));
    } else if s.queue != [] || e.Arrive? {
      var s1 := Step(s, e);
      if |s1.fates| > |s.fates| {
        var fate := s1.fates[|s.fates|];
        HeardAppend(s.fates, [fate]);
        assert s1.fates == s.fates + [fate] && [fate][1..] == [];
      }
    }
  }

  /** What the reads of a run return, in order, is what the queue gave out. */
  lemma {:induction false} RunReturns(s: State, events: seq<Event>)
    ensures Heard(Run(s, events).fates) == Heard(s.fates) + Returned(s, events)
    decreases |events|
  {
    if events != [] {
      var o := Outcomes(s, events[0]);
      StepReturns(s, events[0]);
      RunReturns(Step(s, events[0]), events[1..]);
      Assoc(Heard(s.fates), if |o| == 1 && o[0].Bytes? then [o[0].bytes] else [],
            Returned(Step(s, events[0]), events[1..]));
    }
  }

  /** While no report is dropped or drained and every reader's buffer is long enough, what
      the reads return and what still waits is, in order, exactly what arrived. */
  lemma NothingLost(events: seq<Event>)
    requires var s := Run(INIT, events);
      |s.fates| <= |s.arrived| && forall i :: 0 <= i < |s.fates| ==>
        s.fates[i].Delivered? && s.fates[i].length >= |s.arrived[i]|
    ensures Returned(INIT, events) + Run(INIT, events).queue == Arrivals(events)
  {
    var s := Run(INIT, events);
    RunAccounted(INIT, events);
    RunArrivals(INIT, events);
    HeardAll(s.arrived, s.fates);
    RunReturns(INIT, events);
    assert [] + Arrivals(events) == Arrivals(events) && [] + Returned(INIT, events) == Returned(INIT, events);
  }

  // ---- The linked list ------------------------------------------------------------

  /** input_report */
  class InputReport {
    const data: Data
    var next: InputReport?

    constructor (data: Data)
      ensures this.data == data && next == null
    {
      this.data, next := data, null;
    }
  }

  /** The list that begins at `head` runs through `nodes`: no node twice, each linked to
      the next, the last to nothing. */
  ghost predicate Linked(head: InputReport?, nodes: seq<InputReport>)
    reads nodes
  {
    && (head == if nodes == [] then null else nodes[0])
    && (forall i, j :: 0 <= i < j < |nodes| ==> nodes[i] != nodes[j])
    && (forall i {:trigger nodes[i].next} :: 0 <= i < |nodes| ==>
         nodes[i].next == if i + 1 < |nodes| then nodes[i + 1] else null)
  }

  /** hid_device, as far as the queue goes. */
  class Device {
    var inputReports: InputReport?
    var disconnected: bool
    var shutdownThread: bool
    ghost var spine: seq<InputReport>    // the nodes of the list, in order
    ghost var arrived: seq<Data>
    ghost var fates: seq<Fate>

    ghost predicate Valid()
      reads this, spine
    {
      Linked(inputReports, spine)
    }

    ghost function Contents(nodes: seq<InputReport>): (c: seq<Data>)
      ensures |c| == |nodes| && forall i :: 0 <= i < |nodes| ==> c[i] == nodes[i].data
    {
      if nodes == [] then [] else [nodes[0].data] + Contents(nodes[1..])
    }

    ghost function Abs(): State
      reads this
    {
      State(Contents(spine), disconnected, shutdownThread, arrived, fates)
    }

    constructor ()
      ensures Valid() && Abs() == INIT
    {
      inputReports, disconnected, shutdownThread := null, false, false;
      spine, arrived, fates := [], [], [];
    }

    /** Takes the first report off the list and copies what fits. */
    method ReturnData(length: nat, ghost fate: Fate) returns (bytes: Data)
      requires Valid() && spine != []
      modifies this`inputReports, this`spine, this`fates
      ensures Valid() && spine == old(spine[1..])
      ensures Abs() == Pop(old(Abs()), fate)
      ensures bytes == Fit(old(Abs()).queue[0], length)
    {
      var rpt := inputReports;
      assert rpt == spine[0];
      var len := if length < |rpt.data| then length else |rpt.data|;
      bytes := rpt.data[..len];
      inputReports := rpt.next;
      spine := spine[1..];
      fates := fates + [fate];
    }

    /** Finds the end of the list, counting the links, and attaches a report there. */
    method Attach(rpt: InputReport) returns (numQueued: nat)
      requires Valid() && spine != [] && rpt !in spine && rpt.next == null
      modifies this`spine, spine
      ensures Valid() && spine == old(spine) + [rpt]
      ensures Contents(spine) == Contents(old(spine)) + [rpt.data]
      ensures numQueued == |old(spine)| - 1
    {
      var cur := inputReports;
      numQueued := 0;
      while cur.next != null
        invariant 0 <= numQueued < |spine| && cur == spine[numQueued]
        decreases |spine| - numQueued
      {
        cur := cur.next;
        numQueued := numQueued + 1;
      }
      assert forall i :: 0 <= i < |spine| - 1 ==> spine[i] != cur;
      cur.next := rpt;
      spine := spine + [rpt];
    }

    /** hid_report_callback */
    method HidReportCallback(report: Data)
      requires Valid()
      modifies this`inputReports, this`spine, this`fates, this`arrived, spine
      ensures Valid() && Abs() == ArriveStep(old(Abs()), report)
      ensures fresh(set n | n in spine && n !in old(spine))
    {
      ghost var s := Abs();
      var rpt := new InputReport(report);
      assert Abs() == s && Valid();
      arrived := arrived + [report];
      if inputReports == null {
        inputReports := rpt;
        spine := [rpt];
      } else {
        var numQueued := Attach(rpt);
        assert Abs() == s.(queue := s.queue + [report], arrived := s.arrived + [report]);
        if numQueued > 30 {
          var _ := ReturnData(0, Dropped);
        }
      }
    }

    /** hid_read_timeout, up to the point where it would sleep. */
    method HidReadTimeout(length: nat, milliseconds: int) returns (outcome: Outcome)
      requires Valid()
      modifies this`inputReports, this`spine, this`fates
      ensures Valid() && (Abs(), outcome) == ReadStep(old(Abs()), length, milliseconds)
    {
      if inputReports != null {
        var bytes := ReturnData(length, Delivered(length, Fit(inputReports.data, length)));
        return Bytes(bytes);
      }
      if disconnected { return Failure; }
      if shutdownThread { return Failure; }
      if milliseconds == -1 { return Waits; }
      if milliseconds > 0 { return Waits; }
      return Nothing;
    }

    /** cond_wait and cond_timedwait, each time the condition variable returns, and the
        rest of hid_read_timeout. */
    method WaitReturns(length: nat, timed: bool, wake: Wake) returns (outcome: Outcome)
      requires Valid()
      modifies this`inputReports, this`spine, this`fates
      ensures Valid() && (Abs(), outcome) == WokenStep(old(Abs()), length, timed, wake)
    {
      if wake != Signalled {
        return if timed && wake == TimedOut then Nothing else Failure;
      }
      if shutdownThread || disconnected { return Failure; }
      if inputReports == null { return Waits; }
      var bytes := ReturnData(length, Delivered(length, Fit(inputReports.data, length)));
      return Bytes(bytes);
    }

    /** The end of hid_close: empties the queue. */
    method HidClose()
      requires Valid()
      modifies this`inputReports, this`spine, this`fates, this`shutdownThread
      ensures Valid() && Abs() == Step(old(Abs()), Close)
    {
      shutdownThread := true;
      while inputReports != null
        invariant Valid()
        invariant CloseStep(Abs()) == CloseStep(old(Abs()).(shutdown := true))
        decreases |spine|
      {
        var _ := ReturnData(0, Drained);
      }
    }
  }
}
