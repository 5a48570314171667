/** The reusable barrier of `src/cmedia/hid_mac.cxx`, built on a mutex and a condition
    variable, as a protocol of interleaved steps.  Any number of threads may call it, and
    call it again, at any time. */
module Barrier {
  import opened Common

  /** Where the caller that holds the mutex is; `call` numbers the calls in the order of
      their increments. */
  datatype Holder =
    | Free
    | Increments
    | Compares(call: nat)
    | Resets(call: nat)
    | Broadcasts(call: nat)
    | TripUnlocks(call: nat)
    | Waits(call: nat)
    | Unlocks(call: nat)

  /** What has become of a call that has been counted. */
  datatype Status = Inside | Blocked | Woken | Returned(value: int)

  /** `queued` callers want the mutex for the first time; `trips` counts the rounds that
      are over. */
  datatype State = State(trip: nat, count: nat, holder: Holder, queued: nat, calls: seq<Status>, trips: nat)

  /** A new call; a queued caller gets the mutex; the holder takes its next step; a woken
      caller gets the mutex back.  `Spurious` wakes a caller for no reason. */
  datatype Event = Call | Lock | Advance | Relock(call: nat) | Spurious(call: nat)

  /** pthread_barrier_init: a count of zero is refused. */
  function Init(count: nat): (s: Option<State>)
    ensures s.None? <==> count == 0
    ensures s.Some? ==> Inv(s.value)
  {
    if count == 0 then None else Some(State(count, 0, Free, 0, [], 0))
  }

  function WakeAll(calls: seq<Status>): (r: seq<Status>)
    ensures |r| == |calls|
    ensures forall i :: 0 <= i < |calls| ==> r[i] == if calls[i] == Blocked then Woken else calls[i]
  {
    seq(|calls|, i requires 0 <= i < |calls| => if calls[i] == Blocked then Woken else calls[i])
  }

  function Put(s: State, call: nat, status: Status, holder: Holder): State {
    if call < |s.calls| then s.(calls := s.calls[call := status], holder := holder) else s
  }

  /** The next statement of pthread_barrier_wait for the caller that holds the mutex. */
  function AdvanceStep(s: State): State {
    match s.holder
    case Free => s
    case Increments => s.(count := s.count + 1, calls := s.calls + [Inside], holder := Compares(|s.calls|))
    case Compares(c) => s.(holder := if s.count >= s.trip then Resets(c) else Waits(c))
    case Resets(c) => s.(count := 0, holder := Broadcasts(c))
    case Broadcasts(c) => s.(calls := WakeAll(s.calls), holder := TripUnlocks(c), trips := s.trips + 1)
    case TripUnlocks(c) => Put(s, c, Returned(1), Free)
    case Waits(c) => Put(s, c, Blocked, Free)
    case Unlocks(c) => Put(s, c, Returned(0), Free)
  }

  /** A step that is not possible changes nothing. */
  function Step(s: State, e: Event): State {
    match e
    case Call => s.(queued := s.queued + 1)
    case Lock => if s.holder == Free && s.queued > 0 then s.(holder := Increments, queued := s.queued - 1) else s
    case Advance => AdvanceStep(s)
    case Relock(c) =>
      if s.holder == Free && c < |s.calls| && s.calls[c] == Woken then Put(s, c, Inside, Unlocks(c)) else s
    case Spurious(c) =>
      if c < |s.calls| && s.calls[c] == Blocked then Put(s, c, Woken, s.holder) else s
  }

  function Run(s: State, events: seq<Event>): State
    decreases |events|
  {
    if events == [] then s else Run(Step(s, events[0]), events[1..])
  }

  // ---- The invariant -----------------------------------------------------------

  /** How many calls the rounds that are over had. */
  function Released(s: State): nat { s.trips * s.trip }

  /** Whether the number of a call completes a round, counting rounds off from the start. */
  predicate Completes(call: nat, trip: nat)
    requires trip > 0
  {
    if call + 1 <= trip then call + 1 == trip else Completes(call - trip, trip)
  }

  predicate Last(s: State, call: nat)
    requires s.trip > 0
  {
    Completes(call, s.trip)
  }

  /** How many calls have been counted since the last trip, as far as `count` goes. */
  predicate Counts(s: State) {
    var since := |s.calls| - Released(s);
    match s.holder
    case Free => since == s.count < s.trip
    case Increments => since == s.count < s.trip
    case Compares(c) => since == s.count <= s.trip && s.count > 0 && c == |s.calls| - 1
    case Resets(c) => since == s.count == s.trip && c == |s.calls| - 1
    case Broadcasts(c) => since == s.trip && s.count == 0 && c == |s.calls| - 1
    case TripUnlocks(c) => since == s.count == 0 && c == |s.calls| - 1
    case Waits(c) => since == s.count < s.trip && s.count > 0 && c == |s.calls| - 1
    case Unlocks(c) => since == s.count < s.trip && c < Released(s)
  }

  predicate Holds(h: Holder, call: nat) {
    h != Free && h != Increments && h.call == call
  }

  /** A call of a round that is over is on its way out or has returned what it should; a
      later one is asleep, or was woken for no reason and has not got the mutex back; the
      holder is neither. */
  predicate StatusFits(s: State, call: nat)
    requires call < |s.calls| && s.trip > 0
  {
    if Holds(s.holder, call) then
      s.calls[call] == Inside && (s.holder.Unlocks? ==> !Last(s, call)) && (s.holder.TripUnlocks? ==> Last(s, call))
    else if call >= Released(s) then s.calls[call] == Blocked || s.calls[call] == Woken
    else if Last(s, call) then s.calls[call] == Returned(1)
    else s.calls[call] == Woken || s.calls[call] == Returned(0)
  }

  predicate Inv(s: State) {
    && s.trip > 0
    && Counts(s)
    && forall c :: 0 <= c < |s.calls| ==> StatusFits(s, c)
  }

  /** Only the last number of the k-th stretch of `trip` calls completes a round. */
  lemma {:induction false} CompletesLast(k: nat, trip: nat, r: nat)
    requires trip > 0 && r < trip
    ensures Completes(k * trip + r, trip) <==> r == trip - 1
  {
    if k > 0 {
      assert k * trip == (k - 1) * trip + trip;
      assert (k - 1) * trip >= 0;
      CompletesLast(k - 1, trip, r);
    } else {
      assert k * trip == 0;
    }
  }

  /** Among the calls since the last trip, only the one that fills the round is its last. */
  lemma LastOfRound(s: State, call: nat)
    requires s.trip > 0 && Released(s) <= call < Released(s) + s.trip
    ensures Last(s, call) <==> call == Released(s) + s.trip - 1
  {
    CompletesLast(s.trips, s.trip, call - Released(s));
  }

  lemma BroadcastKeeps(s: State)
    requires Inv(s) && s.holder.Broadcasts?
    ensures Inv(AdvanceStep(s))
  {
    var s' := AdvanceStep(s);
    assert Released(s') == Released(s) + s.trip == |s.calls|;
    forall d | 0 <= d < |s'.calls| ensures StatusFits(s', d) {
      assert StatusFits(s, d);
      assert Last(s', d) == Last(s, d);
      if d >= Released(s) { LastOfRound(s, d); }
    }
  }

  lemma AdvanceKeeps(s: State)
    requires Inv(s)
    ensures Inv(AdvanceStep(s))
  {
    var s' := AdvanceStep(s);
    if s.holder.Broadcasts? {
      BroadcastKeeps(s);
    } else {
      forall d | 0 <= d < |s'.calls| ensures StatusFits(s', d) {
        if d < |s.calls| { assert StatusFits(s, d) && Last(s', d) == Last(s, d); }
      }
    }
  }

  /** A caller that was woken for no reason gets the mutex back before its round is over. */
  predicate Early(s: State, e: Event) {
    e.Relock? && s.holder == Free && e.call < |s.calls| && s.calls[e.call] == Woken && e.call >= Released(s)
  }

  lemma StepKeeps(s: State, e: Event)
    requires Inv(s) && !Early(s, e)
    ensures Inv(Step(s, e))
  {
    match e
    case Advance => AdvanceKeeps(s);
    case Relock(c) => RelockKeeps(s, c);
    case Spurious(c) => SpuriousKeeps(s, c);
    case _ =>
      forall d | 0 <= d < |s.calls| ensures StatusFits(Step(s, e), d) {
        assert StatusFits(s, d) && Last(Step(s, e), d) == Last(s, d);
      }
  }

  lemma RelockKeeps(s: State, call: nat)
    requires Inv(s) && !Early(s, Relock(call))
    ensures Inv(Step(s, Relock(call)))
  {
    var s' := Step(s, Relock(call));
    if call < |s.calls| { assert StatusFits(s, call); }
    forall d | 0 <= d < |s'.calls| ensures StatusFits(s', d) {
      assert StatusFits(s, d) && Last(s', d) == Last(s, d);
    }
  }

  lemma SpuriousKeeps(s: State, call: nat)
    requires Inv(s)
    ensures Inv(Step(s, Spurious(call)))
  {
    var s' := Step(s, Spurious(call));
    if call < |s.calls| { assert StatusFits(s, call); }
    forall d | 0 <= d < |s'.calls| ensures StatusFits(s', d) {
      assert StatusFits(s, d) && Last(s', d) == Last(s, d);
    }
  }

  /** Exactly such a step breaks the invariant: a spurious wake-up alone does not. */
  lemma StepKeepsExactly(s: State, e: Event)
    requires Inv(s)
    ensures Inv(Step(s, e)) <==> !Early(s, e)
  {
    if !Early(s, e) { StepKeeps(s, e); }
  }

  /** No caller of the run gets the mutex back before its round is over. */
  predicate NoneEarly(s: State, events: seq<Event>)
    decreases |events|
  {
    events == [] || (!Early(s, events[0]) && NoneEarly(Step(s, events[0]), events[1..]))
  }

  lemma {:induction false} RunKeeps(s: State, events: seq<Event>)
    requires Inv(s) && NoneEarly(s, events)
    ensures Inv(Run(s, events)) && Run(s, events).trip == s.trip
    decreases |events|
  {
    if events != [] {
      StepKeeps(s, events[0]);
      RunKeeps(Step(s, events[0]), events[1..]);
    }
  }

  // ---- Runs without spurious wake-ups -----------------------------------------------

  /** A spurious wake-up that finds its caller asleep. */
  predicate Disturbs(s: State, e: Event) {
    e.Spurious? && e.call < |s.calls| && s.calls[e.call] == Blocked
  }

  /** No sleeping caller is woken for no reason in the run. */
  predicate Undisturbed(s: State, events: seq<Event>)
    decreases |events|
  {
    events == [] || (!Disturbs(s, events[0]) && Undisturbed(Step(s, events[0]), events[1..]))
  }

  /** Nobody is awake whose round is not over. */
  predicate NoneAwake(s: State) {
    forall c :: 0 <= c < |s.calls| && c >= Released(s) ==> s.calls[c] != Woken
  }

  lemma UndisturbedStep(s: State, e: Event)
    requires Inv(s) && NoneAwake(s) && !Disturbs(s, e)
    ensures !Early(s, e) && NoneAwake(Step(s, e))
  {
    if e.Advance? && s.holder.Broadcasts? {
      assert Released(Step(s, e)) == Released(s) + s.trip == |s.calls|;
    }
  }

  lemma {:induction false} UndisturbedKeeps(s: State, events: seq<Event>)
    requires Inv(s) && NoneAwake(s) && Undisturbed(s, events)
    ensures NoneEarly(s, events) && NoneAwake(Run(s, events))
    decreases |events|
  {
    if events != [] {
      UndisturbedStep(s, events[0]);
      StepKeeps(s, events[0]);
      UndisturbedKeeps(Step(s, events[0]), events[1..]);
    }
  }

  // ---- What the barrier promises --------------------------------------------------

  function Sleepers(calls: seq<Status>): nat {
    if calls == [] then 0 else (if calls[|calls| - 1] == Blocked then 1 else 0) + Sleepers(calls[..|calls| - 1])
  }

  lemma {:induction false} SleepersAre(calls: seq<Status>, from: nat)
    requires from <= |calls|
    requires forall c :: 0 <= c < |calls| ==> (calls[c] == Blocked <==> c >= from)
    ensures Sleepers(calls) == |calls| - from
  {
    if |calls| > from {
      SleepersAre(calls[..|calls| - 1], from);
    } else if |calls| > 0 {
      SleepersAre(calls[..|calls| - 1], from - 1);
    }
  }

  /** Without spurious wake-ups, `count` is the number of sleeping callers whenever the
      mutex is free, and less than the round needs. */
  lemma CountIsSleepers(count: nat, events: seq<Event>)
    requires count > 0 && Undisturbed(Init(count).value, events)
    ensures var s := Run(Init(count).value, events);
      s.holder == Free ==> s.count == Sleepers(s.calls) && s.count < s.trip == count
  {
    var s := Run(Init(count).value, events);
    UndisturbedKeeps(Init(count).value, events);
    RunKeeps(Init(count).value, events);
    if s.holder == Free {
      forall c | 0 <= c < |s.calls| ensures s.calls[c] == Blocked <==> c >= Released(s) {
        assert StatusFits(s, c);
      }
      SleepersAre(s.calls, Released(s));
    }
  }

  /** The round a call belongs to: calls `k * trip` up to `(k + 1) * trip` make round `k`. */
  predicate InRound(call: nat, k: nat, trip: nat) { k * trip <= call < (k + 1) * trip }

  lemma RoundOver(s: State, call: nat, k: nat)
    requires s.trip > 0 && InRound(call, k, s.trip)
    ensures call < Released(s) <==> k < s.trips
  {
    if k < s.trips { Scale(k + 1, s.trips, s.trip); } else { Scale(s.trips, k, s.trip); }
  }

  lemma Scale(a: nat, b: nat, trip: nat)
    requires a <= b
    ensures a * trip <= b * trip
  {
    assert (b - a) * trip >= 0;
  }

  lemma RoundLast(call: nat, k: nat, trip: nat)
    requires trip > 0 && InRound(call, k, trip)
    ensures Completes(call, trip) <==> call == (k + 1) * trip - 1
  {
    assert (k + 1) * trip == k * trip + trip;
    CompletesLast(k, trip, call - k * trip);
  }

  /** The promise: nobody has returned whose round is not full; the caller that filled it
      returned 1 and every other 0. */
  predicate Promise(s: State) {
    forall c, k :: 0 <= c < |s.calls| && 0 <= k <= c && InRound(c, k, s.trip) && s.calls[c].Returned? ==>
      && |s.calls| >= (k + 1) * s.trip
      && s.calls[c].value == if c == (k + 1) * s.trip - 1 then 1 else 0
  }

  lemma RoundReturned(s: State, call: nat, k: nat)
    requires Inv(s) && call < |s.calls| && InRound(call, k, s.trip) && s.calls[call].Returned?
    ensures |s.calls| >= (k + 1) * s.trip
    ensures s.calls[call].value == if call == (k + 1) * s.trip - 1 then 1 else 0
  {
    assert StatusFits(s, call);
    RoundOver(s, call, k);
    RoundLast(call, k, s.trip);
    Scale(k + 1, s.trips, s.trip);
  }

  lemma InvIsPromise(s: State)
    requires Inv(s)
    ensures Promise(s)
  {
    forall c, k | 0 <= c < |s.calls| && 0 <= k <= c && InRound(c, k, s.trip) && s.calls[c].Returned?
      ensures |s.calls| >= (k + 1) * s.trip
      ensures s.calls[c].value == if c == (k + 1) * s.trip - 1 then 1 else 0
    {
      RoundReturned(s, c, k);
    }
  }

  /** In any run in which no caller gets the mutex back before its round is over, no caller
      returns before its round is full; the one that filled it returns 1, every other 0. */
  lemma ReturnsAfterRound(count: nat, events: seq<Event>, call: nat, k: nat)
    requires count > 0 && NoneEarly(Init(count).value, events) && InRound(call, k, count)
    ensures var s := Run(Init(count).value, events);
      call < |s.calls| && s.calls[call].Returned? ==>
        && |s.calls| >= (k + 1) * count
        && s.calls[call].value == if call == (k + 1) * count - 1 then 1 else 0
  {
    var s := Run(Init(count).value, events);
    RunKeeps(Init(count).value, events);
    if call < |s.calls| && s.calls[call].Returned? { RoundReturned(s, call, k); }
  }

  /** A round releases all its callers and nobody else: while the mutex is free, a call whose
      round is not over is asleep or was woken for no reason, and one whose round is over has
      returned, or it is awake and not the one that filled the round. */
  lemma RoundReleases(count: nat, events: seq<Event>, call: nat, k: nat)
    requires count > 0 && NoneEarly(Init(count).value, events) && InRound(call, k, count)
    ensures var s := Run(Init(count).value, events);
      s.holder == Free && call < |s.calls| ==>
        if |s.calls| < (k + 1) * count then s.calls[call] == Blocked || s.calls[call] == Woken
        else s.calls[call].Returned? || (s.calls[call] == Woken && call != (k + 1) * count - 1)
  {
    var s := Run(Init(count).value, events);
    RunKeeps(Init(count).value, events);
    if s.holder == Free && call < |s.calls| {
      RoundFits(s, call, k);
      RoundLast(call, k, count);
    }
  }

  lemma RoundFits(s: State, call: nat, k: nat)
    requires Inv(s) && s.holder == Free && call < |s.calls| && InRound(call, k, s.trip)
    ensures if |s.calls| < (k + 1) * s.trip then s.calls[call] == Blocked || s.calls[call] == Woken
            else s.calls[call].Returned? || (s.calls[call] == Woken && !Completes(call, s.trip))
  {
    assert StatusFits(s, call);
    RoundOver(s, call, k);
    RoundFull(s.trips, k, s.trip);
  }

  /** With `n` rounds over, round `k` is among them or its end lies beyond the next one's. */
  lemma RoundFull(n: nat, k: nat, trip: nat)
    ensures if k < n then (k + 1) * trip <= n * trip else (k + 1) * trip >= n * trip + trip
  {
    if k < n { Scale(k + 1, n, trip); } else { Scale(n, k, trip); }
  }

  // ---- Exactly when it is kept ---------------------------------------------------------

  /** The holder is about to return although its round is not full. */
  predicate Slips(s: State) {
    && s.trip > 0 && s.holder.Unlocks?
    && Released(s) <= s.holder.call < |s.calls| < Released(s) + s.trip
  }

  lemma EarlySlips(s: State, e: Event)
    requires Inv(s) && Early(s, e)
    ensures Slips(Step(s, e))
  {
  }

  /** The next statement of such a holder breaks the promise; until then nothing changes. */
  lemma SlipStep(s: State, e: Event)
    requires Slips(s)
    ensures if e.Advance? then !Promise(Step(s, e)) else Slips(Step(s, e))
  {
    if e.Advance? {
      var c, k, t := s.holder.call, s.trips, Step(s, e);
      assert (k + 1) * s.trip == Released(s) + s.trip;
      if k > 0 { Product(k, s.trip); }
      assert InRound(c, k, t.trip) && t.calls[c] == Returned(0);
    }
  }

  lemma Product(k: nat, trip: nat)
    requires trip > 0
    ensures k <= k * trip
  {
    assert k * (trip - 1) >= 0;
  }

  /** The promise is kept at every point of the run. */
  predicate PromiseThroughout(s: State, events: seq<Event>)
    decreases |events|
  {
    Promise(s) && (events == [] || PromiseThroughout(Step(s, events[0]), events[1..]))
  }

  lemma {:induction false} SlipBreaks(s: State, events: seq<Event>)
    requires Slips(s)
    ensures !PromiseThroughout(s, events + [Advance])
    decreases |events|
  {
    var run := events + [Advance];
    SlipStep(s, run[0]);
    if events != [] && !events[0].Advance? {
      SlipBreaks(Step(s, run[0]), events[1..]);
      assert run[1..] == events[1..] + [Advance];
    }
  }

  lemma {:induction false} PromiseKept(s: State, events: seq<Event>)
    requires Inv(s)
    ensures PromiseThroughout(s, events + [Advance]) <==> NoneEarly(s, events)
    decreases |events|
  {
    var run := events + [Advance];
    InvIsPromise(s);
    if events == [] {
      StepKeeps(s, Advance);
      InvIsPromise(Step(s, Advance));
      assert run[1..] == [];
    } else {
      var t := Step(s, events[0]);
      assert run[0] == events[0] && run[1..] == events[1..] + [Advance];
      if Early(s, events[0]) {
        EarlySlips(s, events[0]);
        SlipBreaks(t, events[1..]);
      } else {
        StepKeeps(s, events[0]);
        PromiseKept(t, events[1..]);
      }
    }
  }

  /** The barrier keeps its promise at every point of a run, the next statement of the holder
      included, exactly when no caller of the run gets the mutex back before its round is
      over. */
  lemma PromiseExactly(count: nat, events: seq<Event>)
    requires count > 0
    ensures PromiseThroughout(Init(count).value, events + [Advance]) <==> NoneEarly(Init(count).value, events)
  {
    PromiseKept(Init(count).value, events);
  }

  /** Every caller that is awake can leave as soon as it gets the mutex: all that a round has
      woken, and too early those woken for no reason, as there is no loop around the wait. */
  lemma WokenLeaves(s: State, call: nat)
    requires Inv(s) && s.holder == Free && call < |s.calls| && s.calls[call] == Woken
    ensures var s' := Run(s, [Relock(call), Advance]);
      && s'.holder == Free && s'.calls == s.calls[call := Returned(0)]
      && (Promise(s') <==> call < Released(s))
  {
    var s1 := Step(s, Relock(call));
    Run2(s, Relock(call), Advance);
    assert s.calls[call := Inside][call := Returned(0)] == s.calls[call := Returned(0)];
    if call < Released(s) {
      StepKeeps(s, Relock(call));
      StepKeeps(s1, Advance);
      InvIsPromise(Step(s1, Advance));
    } else {
      EarlySlips(s, Relock(call));
      SlipStep(s1, Advance);
    }
  }

  lemma Run2(s: State, a: Event, b: Event)
    ensures Run(s, [a, b]) == Step(Step(s, a), b)
  {
    assert [a, b][1..] == [b] && [b][1..] == [];
    var s1 := Step(s, a);
    assert Run(s, [a, b]) == Run(s1, [b]) == Run(Step(s1, b), []);
  }

  /** With any trip count, one spurious wake-up can make any sleeping caller break the promise. */
  lemma SpuriousBreaks(s: State, call: nat)
    requires Inv(s) && s.holder == Free && call < |s.calls| && s.calls[call] == Blocked
    ensures var s' := Run(s, [Spurious(call), Relock(call), Advance]);
      !Promise(s') && s'.calls == s.calls[call := Returned(0)] && |s'.calls| < Released(s') + s'.trip
  {
    assert StatusFits(s, call);
    var events := [Spurious(call), Relock(call), Advance];
    assert events[1..] == [Relock(call), Advance];
    var s1 := Step(s, Spurious(call));
    StepKeeps(s, Spurious(call));
    WokenLeaves(s1, call);
    assert Run(s, events) == Run(s1, [Relock(call), Advance]);
    Run2(s1, Relock(call), Advance);
    assert s.calls[call := Woken][call := Returned(0)] == s.calls[call := Returned(0)];
  }

  // ---- A round can always be completed -----------------------------------------------------

  /** So many statements of the holder. */
  function Statements(n: nat): seq<Event> { if n == 0 then [] else [Advance] + Statements(n - 1) }

  lemma {:induction false} RunStatements(s: State, n: nat)
    requires n > 0
    ensures Run(s, Statements(n)) == Run(AdvanceStep(s), Statements(n - 1))
  {
    assert Statements(n)[1..] == Statements(n - 1);
  }

  lemma RunFive(s: State)
    ensures Run(s, Statements(5)) == AdvanceStep(AdvanceStep(AdvanceStep(AdvanceStep(AdvanceStep(s)))))
  {
    var s1 := AdvanceStep(s);
    var s2 := AdvanceStep(s1);
    var s3 := AdvanceStep(s2);
    var s4 := AdvanceStep(s3);
    RunStatements(s, 5);
    RunStatements(s1, 4);
    RunStatements(s2, 3);
    RunStatements(s3, 2);
    RunStatements(s4, 1);
  }

  /** The holder gives the mutex up within five statements. */
  lemma HolderLeaves(s: State)
    requires Inv(s)
    ensures Run(s, Statements(5)).holder == Free
  {
    RunFive(s);
  }

  /** A queued caller that gets the mutex has gone to sleep, or has woken the round and
      returned 1, when it gives the mutex up. */
  lemma Enters(s: State)
    requires Inv(s) && s.holder == Free && s.queued > 0
    ensures var s' := Run(Step(s, Lock), Statements(5));
      && s'.holder == Free && s'.queued == s.queued - 1 && s'.trip == s.trip
      && if s.count + 1 < s.trip
         then s'.count == s.count + 1 && s'.trips == s.trips && s'.calls == s.calls + [Blocked]
         else s'.count == 0 && s'.trips == s.trips + 1 && s'.calls == WakeAll(s.calls) + [Returned(1)]
  {
    var s0 := Step(s, Lock);
    var s1 := AdvanceStep(s0);
    var s2 := AdvanceStep(s1);
    var s3 := AdvanceStep(s2);
    RunFive(s0);
    var inside := s.calls + [Inside];
    if s.count + 1 < s.trip {
      assert inside[|s.calls| := Blocked] == s.calls + [Blocked];
    } else {
      assert WakeAll(inside) == WakeAll(s.calls) + [Inside];
      assert WakeAll(inside)[|s.calls| := Returned(1)] == WakeAll(s.calls) + [Returned(1)];
    }
  }

  lemma {:induction false} RunAppend(s: State, a: seq<Event>, b: seq<Event>)
    ensures Run(s, a + b) == Run(Run(s, a), b)
    ensures NoneEarly(s, a + b) <==> NoneEarly(s, a) && NoneEarly(Run(s, a), b)
    decreases |a|
  {
    Front(a, b);
    if a != [] { RunAppend(Step(s, a[0]), a[1..], b); }
  }

  predicate NoRelocks(events: seq<Event>) { forall e :: e in events ==> !e.Relock? }

  lemma {:induction false} NoRelockNoneEarly(s: State, events: seq<Event>)
    requires NoRelocks(events)
    ensures NoneEarly(s, events)
    decreases |events|
  {
    if events != [] {
      assert events[0] in events;
      NoRelockNoneEarly(Step(s, events[0]), events[1..]);
    }
  }

  /** As many queued callers as the round still needs fill it. */
  lemma {:induction false} FillRound(s: State) returns (events: seq<Event>)
    requires Inv(s) && s.holder == Free && s.queued >= s.trip - s.count
    ensures NoneEarly(s, events)
    ensures var s' := Run(s, events);
      && Inv(s') && s'.holder == Free && s'.count == 0 && s'.trips == s.trips + 1 && s'.trip == s.trip
      && |s'.calls| == |s.calls| + s.trip - s.count == Released(s') && s'.queued == s.queued - (s.trip - s.count)
    decreases s.trip - s.count
  {
    var enter := [Lock] + Statements(5);
    StatementsOnly(5);
    assert enter[1..] == Statements(5);
    Enters(s);
    NoRelockNoneEarly(s, enter);
    RunKeeps(s, enter);
    var s1 := Run(s, enter);
    if s.count + 1 < s.trip {
      var rest := FillRound(s1);
      events := enter + rest;
      RunAppend(s, enter, rest);
    } else {
      events := enter;
    }
  }

  lemma {:induction false} StatementsOnly(n: nat)
    ensures forall e :: e in Statements(n) ==> e == Advance
  {
    if n > 0 { StatementsOnly(n - 1); }
  }

  /** And all callers of the rounds that are over can leave, one after another. */
  lemma {:induction false} AllLeave(s: State, from: nat) returns (events: seq<Event>)
    requires Inv(s) && s.holder == Free && |s.calls| == Released(s) && from <= |s.calls|
    requires forall c :: 0 <= c < from ==> s.calls[c].Returned?
    ensures NoneEarly(s, events)
    ensures var s' := Run(s, events);
      && Inv(s') && s'.holder == Free && s'.trips == s.trips && s'.queued == s.queued
      && |s'.calls| == |s.calls| && forall c :: 0 <= c < |s'.calls| ==> s'.calls[c].Returned?
    decreases |s.calls| - from
  {
    events := [];
    if from < |s.calls| {
      assert StatusFits(s, from);
      if s.calls[from].Returned? {
        events := AllLeave(s, from + 1);
      } else {
        var leave := [Relock(from), Advance];
        var s1 := Run(s, leave);
        LeaveRuns(s, from);
        var rest := AllLeave(s1, from + 1);
        events := leave + rest;
        RunAppend(s, leave, rest);
      }
    }
  }

  lemma LeaveRuns(s: State, call: nat)
    requires Inv(s) && s.holder == Free && call < Released(s) && call < |s.calls| && s.calls[call] == Woken
    ensures var leave := [Relock(call), Advance];
      var s1 := Run(s, leave);
      && NoneEarly(s, leave) && Inv(s1) && s1.holder == Free && s1.calls == s.calls[call := Returned(0)]
      && s1.trip == s.trip && s1.trips == s.trips && s1.queued == s.queued
  {
    var leave := [Relock(call), Advance];
    WokenLeaves(s, call);
    Run2(s, Relock(call), Advance);
    assert leave[1..] == [Advance] && [Advance][1..] == [];
    assert NoneEarly(Step(s, Relock(call)), [Advance]);
    RunKeeps(s, leave);
  }

  /** No caller need be left behind: with the callers that a round still needs, a run exists
      that completes it and in which everybody returns. */
  lemma RoundCompletes(s: State) returns (events: seq<Event>)
    requires Inv(s) && s.holder == Free && s.queued >= s.trip - s.count
    ensures NoneEarly(s, events)
    ensures var s' := Run(s, events);
      && s'.trips == s.trips + 1 && |s'.calls| == |s.calls| + s.trip - s.count
      && forall c :: 0 <= c < |s'.calls| ==> s'.calls[c].Returned?
  {
    var fill := FillRound(s);
    var leave := AllLeave(Run(s, fill), 0);
    events := fill + leave;
    RunAppend(s, fill, leave);
  }
}
