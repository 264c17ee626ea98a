/**
 A subscription: the reader thread that reads a stream, hands each message to the
 user's callback and resubscribes when the stream ends, against any number of
 concurrent Cancel calls.  Events and commands run the same protocol; commands
 pass over requests of another type.

 Each action is one atomic access.  What Read, Subscribe and the callbacks do is
 an input of the step, so a run is any interleaving with any environment.
 */
module Subscription {
  import opened Backoff
  import opened Wrappers
  import opened Runs

  datatype Kind = Events | Commands

  datatype Message = Message(isCommand: bool, body: int)

  /** How a user callback ends. */
  datatype Outcome = Returned | ThrewStd(what: string) | ThrewOther

  datatype Config = Config(kind: Kind, hasCallback: bool, hasOnError: bool)

  /** What on_error is told. */
  datatype Report = CallbackThrew(what: string) | CallbackThrewUnknown | StreamEnded

  /** One invocation of the user's callback. */
  datatype Delivery = Delivery(message: Message, outcome: Outcome)

  datatype Pc =
    | OuterCheck                     // about to load done at the outer loop
    | Reading                        // in Read
    | Handling(message: Message)     // about to invoke the callback through the guard
    | Finishing                      // Read returned false, about to call Finish
    | AfterFinish                    // about to load done
    | InnerCheck                     // about to load done at the resubscribe loop
    | Sleeping
    | AfterSleep                     // about to load done
    | Committed                      // found done clear, about to call Subscribe
    | Subscribing                    // in Subscribe
    | SetCtx(stream: nat)            // a stream is open, about to publish its context
    | SetReader(stream: nat)         // about to make it the current stream
    | Doubling                       // Subscribe failed, about to double the wait
    | AfterInner(reconnected: bool)
    | ExitCheck                      // about to load done after the loops
    | StoreDone
    | ReportEnd
    | Exited

  datatype State = State(
    done: bool,
    pc: Pc,
    ctx: nat,                      // the stream whose context Cancel would cancel
    reader: nat,                   // the stream Read is called on
    backoff: int,                  // seconds
    pendingCancels: nat,           // Cancel calls between setting done and TryCancel
    cancelled: set<nat>,           // streams whose context was cancelled
    // History, read by no step:
    cancels: nat,                  // Cancel calls begun
    streams: seq<seq<Message>>,    // what was read from each stream, in order of opening
    deliveries: seq<Delivery>,
    reports: seq<Report>,
    failures: nat,                 // Subscribe failures in the current outage
    slept: seq<int>                // waits of the current outage
  )

  const INITIAL := State(false, OuterCheck, 0, 0, 0, 0, {}, 0, [[]], [], [], 0, [])

  datatype Action =
    | CancelStore                  // a Cancel call sets done
    | CancelTry                    // and cancels the current context
    | Got(message: Message)        // Read returns true
    | End                          // Read returns false
    | Ran(outcome: Outcome)        // the guarded callback has run
    | Subscribed(ok: bool)         // Subscribe returns
    | Tick                         // any other step of the reader thread

  predicate Accepts(kind: Kind, m: Message) { kind == Events || m.isCommand }

  /**
   The callback guard: an exception of the callback becomes one call of on_error,
   if there is one; whether on_error throws in turn makes no difference, and
   nothing escapes to the caller.
   */
  function Guard(outcome: Outcome, hasOnError: bool): seq<Report> {
    if !hasOnError then []
    else match outcome
      case Returned => []
      case ThrewStd(what) => [CallbackThrew("callback threw: " + what)]
      case ThrewOther => [CallbackThrewUnknown]
  }

  predicate Enabled(s: State, a: Action) {
    match a
    case CancelStore => true
    case CancelTry => s.pendingCancels > 0
    case Got(_) => s.pc == Reading && s.reader < |s.streams|
    case End => s.pc == Reading
    case Ran(_) => s.pc.Handling?
    case Subscribed(_) => s.pc == Subscribing
    case Tick => s.pc != Reading && !s.pc.Handling? && s.pc != Subscribing && s.pc != Exited
  }

  function Apply(c: Config, s: State, a: Action): State
    requires Enabled(s, a)
  {
    match a
    case CancelStore => s.(done := true, pendingCancels := s.pendingCancels + 1, cancels := s.cancels + 1)
    case CancelTry => s.(cancelled := s.cancelled + {s.ctx}, pendingCancels := s.pendingCancels - 1)
    case Got(m) =>
      s.(streams := s.streams[s.reader := s.streams[s.reader] + [m]],
         pc := if Accepts(c.kind, m) then Handling(m) else Reading)
    case End => s.(pc := Finishing)
    case Ran(outcome) =>
      if c.hasCallback then
        s.(pc := Reading, deliveries := s.deliveries + [Delivery(s.pc.message, outcome)],
           reports := s.reports + Guard(outcome, c.hasOnError))
      else s.(pc := Reading)
    case Subscribed(ok) =>
      if ok then s.(pc := SetCtx(|s.streams|), streams := s.streams + [[]])
      else s.(pc := Doubling, failures := s.failures + 1)
    case Tick => ReaderStep(c, s)
  }

  function ReaderStep(c: Config, s: State): State {
    match s.pc
    case OuterCheck => s.(pc := if s.done then ExitCheck else Reading)
    case Finishing => s.(pc := AfterFinish)
    case AfterFinish =>
      if s.done then s.(pc := ExitCheck) else s.(pc := InnerCheck, backoff := 1, failures := 0, slept := [])
    case InnerCheck => s.(pc := if s.done then AfterInner(false) else Sleeping)
    case Sleeping => s.(pc := AfterSleep, slept := s.slept + [s.backoff])
    case AfterSleep => s.(pc := if s.done then AfterInner(false) else Committed)
    case Committed => s.(pc := Subscribing)
    case SetCtx(n) => s.(pc := SetReader(n), ctx := n)
    case SetReader(n) => s.(pc := AfterInner(true), reader := n)
    case Doubling => s.(pc := InnerCheck, backoff := Min(s.backoff * 2, 30))
    case AfterInner(reconnected) => s.(pc := if reconnected then OuterCheck else ExitCheck)
    case ExitCheck => s.(pc := if s.done then Exited else StoreDone)
    case StoreDone => s.(done := true, pc := ReportEnd)
    case ReportEnd => s.(pc := Exited, reports := s.reports + if c.hasOnError then [StreamEnded] else [])
    case _ => s
  }

  function Next(c: Config): System<State, Action> {
    (s: State, a: Action) => if Enabled(s, a) then Some(Apply(c, s, a)) else None
  }

  // ------------------------------------------------- what should be delivered

  function Concat(streams: seq<seq<Message>>): seq<Message> {
    if streams == [] then [] else Concat(streams[..|streams| - 1]) + streams[|streams| - 1]
  }

  function Accepted(kind: Kind, messages: seq<Message>): seq<Message> {
    if messages == [] then []
    else
      var n := |messages| - 1;
      Accepted(kind, messages[..n]) + if Accepts(kind, messages[n]) then [messages[n]] else []
  }

  function Messages(deliveries: seq<Delivery>): (s: seq<Message>)
    ensures |s| == |deliveries|
    ensures forall i :: 0 <= i < |s| ==> s[i] == deliveries[i].message
  {
    seq(|deliveries|, i requires 0 <= i < |deliveries| => deliveries[i].message)
  }

  /** One report for each delivery that threw, in order. */
  function Reports(deliveries: seq<Delivery>, hasOnError: bool): seq<Report> {
    if deliveries == [] then []
    else
      var n := |deliveries| - 1;
      Reports(deliveries[..n], hasOnError) + Guard(deliveries[n].outcome, hasOnError)
  }

  lemma ConcatGrows(streams: seq<seq<Message>>, m: Message)
    requires streams != []
    ensures var n := |streams| - 1;
      Concat(streams[n := streams[n] + [m]]) == Concat(streams) + [m]
  {
    var n := |streams| - 1;
    var streams' := streams[n := streams[n] + [m]];
    assert streams'[..n] == streams[..n];
  }

  lemma ConcatOpens(streams: seq<seq<Message>>)
    ensures Concat(streams + [[]]) == Concat(streams)
  {
    assert (streams + [[]])[..|streams|] == streams;
  }

  lemma AcceptedGrows(kind: Kind, messages: seq<Message>, m: Message)
    ensures Accepted(kind, messages + [m]) == Accepted(kind, messages) + if Accepts(kind, m) then [m] else []
  {
    assert (messages + [m])[..|messages|] == messages;
  }

  lemma ReportsGrow(deliveries: seq<Delivery>, d: Delivery, hasOnError: bool)
    ensures Reports(deliveries + [d], hasOnError) == Reports(deliveries, hasOnError) + Guard(d.outcome, hasOnError)
    ensures Messages(deliveries + [d]) == Messages(deliveries) + [d.message]
  {
    assert (deliveries + [d])[..|deliveries|] == deliveries;
  }

  // --------------------------------------------------------------- invariant

  /** The reader is inside the read loop of the current stream. */
  predicate InReadLoop(pc: Pc) { pc == Reading || pc.Handling? }

  /** Nothing but Cancel ever sets done, and only done ends the thread. */
  predicate DoneInv(s: State) {
    && (s.done <==> s.cancels > 0)
    && (s.pc == ExitCheck || s.pc == Exited || s.pc == AfterInner(false) ==> s.done)
    && s.pc != StoreDone && s.pc != ReportEnd
  }

  /** The newest stream is the current one, except while it is being installed. */
  predicate StreamInv(s: State) {
    && s.streams != []
    && (s.pc.SetCtx? || s.pc.SetReader? ==> s.pc.stream == |s.streams| - 1 && s.streams[|s.streams| - 1] == [])
    && (s.pc.SetReader? ==> s.ctx == s.pc.stream)
    && (!s.pc.SetCtx? && !s.pc.SetReader? ==> s.reader == s.ctx == |s.streams| - 1)
  }

  /** No Cancel is lost: a reader still reading after done has its stream cancelled, or about to be. */
  predicate CancelInv(s: State) {
    s.done && InReadLoop(s.pc) ==> s.pendingCancels > 0 || s.reader in s.cancelled
  }

  predicate DeliveryInv(c: Config, s: State) {
    && (s.pc.Handling? ==> Accepts(c.kind, s.pc.message))
    && s.reports == Reports(s.deliveries, c.hasOnError)
    && (if c.hasCallback
        then Messages(s.deliveries) + (if s.pc.Handling? then [s.pc.message] else [])
             == Accepted(c.kind, Concat(s.streams))
        else s.deliveries == [])
  }

  /** The wait is the one the closed form prescribes for the failures so far. */
  predicate BackoffInv(s: State) {
    s.pc == InnerCheck || s.pc == Sleeping || s.pc == AfterSleep || s.pc == Committed
    || s.pc == Subscribing || s.pc == Doubling ==>
      && (s.pc == Doubling ==> s.failures > 0)
      && s.backoff == IteratedWait(1, 2, 30, if s.pc == Doubling then s.failures - 1 else s.failures)
      && |s.slept| == s.failures + (if s.pc == AfterSleep || s.pc == Committed || s.pc == Subscribing then 1 else 0)
      && forall k :: 0 <= k < |s.slept| ==> s.slept[k] == IteratedWait(1, 2, 30, k)
  }

  predicate Inv(c: Config, s: State) {
    DoneInv(s) && StreamInv(s) && CancelInv(s) && DeliveryInv(c, s) && BackoffInv(s)
  }

  lemma KeepsDone(c: Config, s: State, a: Action)
    requires Enabled(s, a) && DoneInv(s)
    ensures DoneInv(Apply(c, s, a))
  {
    hide Guard, Reports, Min, Accepts;
  }

  lemma KeepsStreams(c: Config, s: State, a: Action)
    requires Enabled(s, a) && DoneInv(s) && StreamInv(s)
    ensures StreamInv(Apply(c, s, a))
  {
    if a == Tick {
      TickKeepsStreams(c, s);
    } else {
      hide Guard, Reports, Min, Accepts, ReaderStep;
    }
  }

  lemma TickKeepsStreams(c: Config, s: State)
    requires Enabled(s, Tick) && DoneInv(s) && StreamInv(s)
    ensures StreamInv(ReaderStep(c, s))
  {
    hide Min;
  }

  lemma KeepsCancel(c: Config, s: State, a: Action)
    requires Enabled(s, a) && DoneInv(s) && StreamInv(s) && CancelInv(s)
    ensures CancelInv(Apply(c, s, a))
  {
    hide Guard, Reports, Min, Accepts;
  }

  lemma GotKeepsDeliveries(c: Config, s: State, m: Message)
    requires Enabled(s, Got(m)) && StreamInv(s) && DeliveryInv(c, s)
    ensures DeliveryInv(c, Apply(c, s, Got(m)))
  {
    hide Min, Guard, Concat, Accepted, Messages, Reports;
    ConcatGrows(s.streams, m);
    AcceptedGrows(c.kind, Concat(s.streams), m);
  }

  lemma RanKeepsDeliveries(c: Config, s: State, outcome: Outcome)
    requires Enabled(s, Ran(outcome)) && DeliveryInv(c, s)
    ensures DeliveryInv(c, Apply(c, s, Ran(outcome)))
  {
    hide Min, Guard, Concat, Accepted, Messages, Reports;
    ReportsGrow(s.deliveries, Delivery(s.pc.message, outcome), c.hasOnError);
  }

  /** Steps that neither read nor run a callback. */
  lemma OtherSteps(c: Config, s: State, a: Action)
    requires Enabled(s, a) && !a.Got? && !a.Ran? && s.pc != ReportEnd
    ensures var s' := Apply(c, s, a);
      && s'.deliveries == s.deliveries && s'.reports == s.reports
      && (s'.streams == s.streams || s'.streams == s.streams + [[]])
      && (s'.pc.Handling? <==> s.pc.Handling?) && (s.pc.Handling? ==> s'.pc == s.pc)
  {
    hide Min;
  }

  lemma KeepsDeliveries(c: Config, s: State, a: Action)
    requires Enabled(s, a) && DoneInv(s) && StreamInv(s) && DeliveryInv(c, s)
    ensures DeliveryInv(c, Apply(c, s, a))
  {
    if a.Got? {
      GotKeepsDeliveries(c, s, a.message);
    } else if a.Ran? {
      RanKeepsDeliveries(c, s, a.outcome);
    } else {
      OtherSteps(c, s, a);
      ConcatOpens(s.streams);
      hide Apply, Guard, Concat, Accepted, Messages, Reports, Enabled, StreamInv;
    }
  }

  lemma KeepsBackoff(c: Config, s: State, a: Action)
    requires Enabled(s, a) && BackoffInv(s)
    ensures BackoffInv(Apply(c, s, a))
  {
    if a == Tick {
      TickKeepsBackoff(c, s);
    } else {
      hide Guard, Reports, ReaderStep, Min, Accepts;
    }
  }

  lemma TickKeepsBackoff(c: Config, s: State)
    requires Enabled(s, Tick) && BackoffInv(s)
    ensures BackoffInv(ReaderStep(c, s))
  {
    FirstWait();
    if s.pc == Doubling { NextWait(s.failures); }
    hide IteratedWait, Min;
  }

  lemma FirstWait()
    ensures IteratedWait(1, 2, 30, 0) == 1
  {}

  lemma NextWait(k: nat)
    requires k > 0
    ensures IteratedWait(1, 2, 30, k) == Min(IteratedWait(1, 2, 30, k - 1) * 2, 30)
  {}

  lemma ActionKeepsInv(c: Config, s: State, a: Action)
    requires Enabled(s, a) && Inv(c, s)
    ensures Inv(c, Apply(c, s, a))
  {
    hide Apply, Enabled, DoneInv, StreamInv, CancelInv, DeliveryInv, BackoffInv;
    KeepsDone(c, s, a);
    KeepsStreams(c, s, a);
    KeepsCancel(c, s, a);
    KeepsDeliveries(c, s, a);
    KeepsBackoff(c, s, a);
  }

  lemma InitialInv(c: Config)
    ensures Inv(c, INITIAL)
  {
    ConcatOpens([]);
    assert [] + [[]] == INITIAL.streams;
  }

  // -------------------------------------------------------------------- runs

  ghost predicate Reachable(c: Config, s: State) { Reaches(Next(c), INITIAL, s) }

  lemma ReachableInv(c: Config, s: State)
    requires Reachable(c, s)
    ensures Inv(c, s)
  {
    var next := Next(c);
    forall s, a | Inv(c, s) && next(s, a).Some?
      ensures Inv(c, next(s, a).value)
    {
      hide Inv, Enabled, Apply;
      ActionKeepsInv(c, s, a);
    }
    InitialInv(c);
    ReachableKeeps(next, s => Inv(c, s), INITIAL, s);
  }

  /**
   The reader thread ends only after a Cancel: however often the stream breaks and
   Subscribe fails, it never gives up.  So its report of a stream that ended for
   good is never made.
   */
  lemma EndsOnlyWhenCancelled(c: Config, s: State)
    requires Reachable(c, s)
    ensures s.done <==> s.cancels > 0
    ensures s.pc == Exited ==> s.cancels > 0
    ensures s.pc != StoreDone && s.pc != ReportEnd && StreamEnded !in s.reports
  {
    ReachableInv(c, s);
    NeverEnded(s.deliveries, c.hasOnError);
  }

  lemma {:induction false} NeverEnded(deliveries: seq<Delivery>, hasOnError: bool)
    ensures StreamEnded !in Reports(deliveries, hasOnError)
    decreases |deliveries|
  {
    if deliveries != [] { NeverEnded(deliveries[..|deliveries| - 1], hasOnError); }
  }

  /**
   Over any number of reconnections, the callback has been invoked once for each
   accepted message read so far, in order, except for the one in hand; and
   on_error has been told of exactly the invocations that threw.
   */
  lemma DeliversExactlyWhatWasRead(c: Config, s: State)
    requires Reachable(c, s) && c.hasCallback
    ensures !s.pc.Handling? ==> Messages(s.deliveries) == Accepted(c.kind, Concat(s.streams))
    ensures s.pc.Handling? ==> Messages(s.deliveries) + [s.pc.message] == Accepted(c.kind, Concat(s.streams))
    ensures s.reports == Reports(s.deliveries, c.hasOnError)
    ensures c.kind == Events && !s.pc.Handling? ==> Messages(s.deliveries) == Concat(s.streams)
    ensures c.kind == Commands && !s.pc.Handling? ==> Messages(s.deliveries) == OnlyCommands(Concat(s.streams))
    ensures if c.hasOnError then Describe(s.reports, Throws(s.deliveries)) else s.reports == []
  {
    ReachableInv(c, s);
    ReportsDescribe(s.deliveries, c.hasOnError);
    if c.kind == Events { EventsAcceptAll(Concat(s.streams)); } else { CommandsAreAccepted(Concat(s.streams)); }
  }

  function OnlyCommands(messages: seq<Message>): seq<Message> {
    if messages == [] then []
    else if messages[0].isCommand then [messages[0]] + OnlyCommands(messages[1..])
    else OnlyCommands(messages[1..])
  }

  lemma {:induction false} OnlyCommandsSnoc(messages: seq<Message>, m: Message)
    ensures OnlyCommands(messages + [m]) == OnlyCommands(messages) + if m.isCommand then [m] else []
    decreases |messages|
  {
    if messages == [] {
      assert [] + [m] == [m];
    } else {
      assert (messages + [m])[1..] == messages[1..] + [m];
      OnlyCommandsSnoc(messages[1..], m);
    }
  }

  lemma {:induction false} CommandsAreAccepted(messages: seq<Message>)
    ensures Accepted(Commands, messages) == OnlyCommands(messages)
    decreases |messages|
  {
    if messages != [] {
      var n := |messages| - 1;
      CommandsAreAccepted(messages[..n]);
      OnlyCommandsSnoc(messages[..n], messages[n]);
      assert messages == messages[..n] + [messages[n]];
    }
  }

  /** The ways the deliveries that threw ended. */
  function Throws(deliveries: seq<Delivery>): seq<Outcome> {
    if deliveries == [] then []
    else
      var n := |deliveries| - 1;
      Throws(deliveries[..n]) + if deliveries[n].outcome == Returned then [] else [deliveries[n].outcome]
  }

  /** One report for each throw, in order: with its text if it was a standard exception. */
  predicate Describe(reports: seq<Report>, throws: seq<Outcome>) {
    && |reports| == |throws|
    && forall i :: 0 <= i < |reports| ==>
         && (throws[i].ThrewStd? ==> reports[i] == CallbackThrew("callback threw: " + throws[i].what))
         && (throws[i].ThrewOther? ==> reports[i] == CallbackThrewUnknown)
         && throws[i] != Returned
  }

  lemma {:induction false} ReportsDescribe(deliveries: seq<Delivery>, hasOnError: bool)
    ensures if hasOnError then Describe(Reports(deliveries, true), Throws(deliveries)) else Reports(deliveries, false) == []
    decreases |deliveries|
  {
    if deliveries != [] { ReportsDescribe(deliveries[..|deliveries| - 1], hasOnError); }
  }

  lemma {:induction false} EventsAcceptAll(messages: seq<Message>)
    ensures Accepted(Events, messages) == messages
    decreases |messages|
  {
    if messages != [] { EventsAcceptAll(messages[..|messages| - 1]); }
  }

  /** A reader still inside the read loop after a Cancel has its own stream cancelled once TryCancel has run. */
  lemma CancelReachesReader(c: Config, s: State)
    requires Reachable(c, s) && s.cancels > 0 && s.pendingCancels == 0 && InReadLoop(s.pc)
    ensures s.reader in s.cancelled && s.reader == s.ctx
  {
    ReachableInv(c, s);
  }

  /** The waits of an outage start at one second and follow the default reconnection policy. */
  lemma WaitsFollowClosedForm(c: Config, s: State, k: nat, draw: nat)
    requires Reachable(c, s) && (s.pc == Sleeping || s.pc == AfterSleep || s.pc == Committed || s.pc == Subscribing)
    ensures s.pc == Sleeping ==>
      && |s.slept| == s.failures
      && s.backoff * 1000 == CalculateBackoff(DEFAULT_RECONNECT.(jitter := NoJitter), s.failures, draw)
    ensures k < |s.slept| ==>
      s.slept[k] * 1000 == CalculateBackoff(DEFAULT_RECONNECT.(jitter := NoJitter), k, draw)
  {
    ReachableInv(c, s);
    ResubscribeWaitIsDefaultDelay(s.failures, draw);
    ResubscribeWaitIsDefaultDelay(k, draw);
  }

  /** How many Subscribe calls begin during a run. */
  ghost function SubscribesBegun(c: Config, s: State, run: seq<Action>): nat
    requires IsRun(Next(c), s, run)
    decreases |run|
  {
    if run == [] then 0
    else
      var s' := Apply(c, s, run[0]);
      (if s.pc == Committed && s'.pc == Subscribing then 1 else 0) + SubscribesBegun(c, s', run[1..])
  }

  /** How many Subscribe calls, and how many streams, may still come once done is set. */
  function CallsLeft(pc: Pc): nat { if pc == Committed then 1 else 0 }

  function StreamsLeft(pc: Pc): nat { if pc == Committed || pc == Subscribing then 1 else 0 }

  lemma DoneStep(c: Config, s: State, a: Action)
    requires Enabled(s, a) && Inv(c, s) && s.done
    ensures var s' := Apply(c, s, a);
      && s'.done
      && (s.pc == Committed && s'.pc == Subscribing ==> CallsLeft(s'.pc) < CallsLeft(s.pc))
      && CallsLeft(s'.pc) <= CallsLeft(s.pc)
      && |s'.streams| + StreamsLeft(s'.pc) <= |s.streams| + StreamsLeft(s.pc)
      && |s.streams| <= |s'.streams|
      && (!InReadLoop(s.pc) ==> !InReadLoop(s'.pc))
      && (InReadLoop(s.pc) ==> |s'.streams| == |s.streams|)
      && (!InReadLoop(s.pc) ==> forall i :: 0 <= i < |s.streams| ==> s'.streams[i] == s.streams[i])
      && (forall i :: |s.streams| <= i < |s'.streams| ==> s'.streams[i] == [])
  {
    hide CancelInv, DeliveryInv, BackoffInv, Guard, Reports, Min;
  }

  /**
   Once done is set at most one more Subscribe call begins, and only if the reader
   had already found done clear; at most one more stream is opened.
   */
  lemma {:induction false} AtMostOneSubscribeAfterDone(c: Config, s: State, run: seq<Action>)
    requires Inv(c, s) && IsRun(Next(c), s, run) && s.done
    ensures SubscribesBegun(c, s, run) <= CallsLeft(s.pc) <= 1
    ensures |s.streams| <= |Exec(Next(c), s, run).streams| <= |s.streams| + StreamsLeft(s.pc)
    decreases |run|
  {
    hide Inv, Apply, Enabled, StreamsLeft;
    if run != [] {
      ActionKeepsInv(c, s, run[0]);
      DoneStep(c, s, run[0]);
      AtMostOneSubscribeAfterDone(c, Apply(c, s, run[0]), run[1..]);
    }
  }

  /** A stream opened after done was set is never read. */
  lemma {:induction false} StreamsOpenedAfterDoneAreNotRead(c: Config, s: State, run: seq<Action>)
    requires Inv(c, s) && IsRun(Next(c), s, run) && s.done
    ensures var t := Exec(Next(c), s, run);
      |s.streams| <= |t.streams| && forall i :: |s.streams| <= i < |t.streams| ==> t.streams[i] == []
    decreases |run|
  {
    hide Inv, Apply, Enabled, StreamsLeft, CallsLeft, InReadLoop;
    if run != [] {
      var s' := Apply(c, s, run[0]);
      ActionKeepsInv(c, s, run[0]);
      DoneStep(c, s, run[0]);
      StreamsOpenedAfterDoneAreNotRead(c, s', run[1..]);
      if |s'.streams| > |s.streams| {
        NotReadingAfterDone(c, s', run[1..]);
      }
    }
  }

  /** Outside the read loop with done set, nothing is ever read again. */
  lemma {:induction false} NotReadingAfterDone(c: Config, s: State, run: seq<Action>)
    requires Inv(c, s) && IsRun(Next(c), s, run) && s.done && !InReadLoop(s.pc)
    ensures var t := Exec(Next(c), s, run);
      |s.streams| <= |t.streams| && forall i :: 0 <= i < |s.streams| ==> t.streams[i] == s.streams[i]
    decreases |run|
  {
    hide Inv, Apply, Enabled, StreamsLeft, CallsLeft, InReadLoop;
    if run != [] {
      ActionKeepsInv(c, s, run[0]);
      DoneStep(c, s, run[0]);
      NotReadingAfterDone(c, Apply(c, s, run[0]), run[1..]);
    }
  }

  // ------------------------------------------------------------- termination

  predicate OfReader(a: Action) { a != CancelStore && a != CancelTry }

  function ReaderSteps(run: seq<Action>): nat {
    if run == [] then 0 else (if OfReader(run[0]) then 1 else 0) + ReaderSteps(run[1..])
  }

  function Reads(run: seq<Action>): nat {
    if run == [] then 0 else (if run[0].Got? then 1 else 0) + Reads(run[1..])
  }

  /** Steps the reader still needs once done is set, if Read returns no more messages. */
  function Rank(pc: Pc): nat {
    match pc
    case Exited => 0
    case ExitCheck => 1
    case OuterCheck => 2
    case AfterFinish => 2
    case AfterInner(_) => 3
    case Finishing => 3
    case Reading => 4
    case Handling(_) => 5
    case AfterSleep => 4
    case InnerCheck => 4
    case SetReader(_) => 4
    case Sleeping => 5
    case Doubling => 5
    case SetCtx(_) => 5
    case Subscribing => 6
    case Committed => 7
    case StoreDone => 0
    case ReportEnd => 0
  }

  lemma RankFalls(c: Config, s: State, a: Action)
    requires Enabled(s, a) && Inv(c, s) && s.done
    ensures var s' := Apply(c, s, a);
      && (!OfReader(a) ==> Rank(s'.pc) == Rank(s.pc))
      && (OfReader(a) ==> Rank(s'.pc) + 1 <= Rank(s.pc) + if a.Got? then 2 else 0)
  {
    hide StreamInv, CancelInv, DeliveryInv, BackoffInv, Guard, Reports, Min, Accepts;
  }

  /** Some step of the reader is possible whatever the environment answers next. */
  ghost predicate ReaderCanMove(s: State) {
    || Enabled(s, Tick)
    || (Enabled(s, End) && forall m: Message :: Enabled(s, Got(m)))
    || (forall outcome: Outcome :: Enabled(s, Ran(outcome)))
    || (forall ok: bool :: Enabled(s, Subscribed(ok)))
  }

  lemma ReaderIsNeverStuck(c: Config, s: State)
    requires Inv(c, s) && s.pc != Exited
    ensures ReaderCanMove(s)
  {
    hide DoneInv, CancelInv, DeliveryInv, BackoffInv;
  }

  /**
   After done is set the reader takes at most seven steps more, not counting those
   for messages Read still returns; so a cancelled reader exits and can be joined.
   */
  lemma {:induction false} ReaderExitsAfterCancel(c: Config, s: State, run: seq<Action>)
    requires Inv(c, s) && IsRun(Next(c), s, run) && s.done
    ensures ReaderSteps(run) + Rank(Exec(Next(c), s, run).pc) <= Rank(s.pc) + 2 * Reads(run)
    ensures Rank(s.pc) <= 7
    decreases |run|
  {
    hide Inv, Apply, Enabled, Rank, OfReader;
    if run != [] {
      ActionKeepsInv(c, s, run[0]);
      DoneStep(c, s, run[0]);
      RankFalls(c, s, run[0]);
      ReaderExitsAfterCancel(c, Apply(c, s, run[0]), run[1..]);
    }
    RankBound(s.pc);
  }

  lemma RankBound(pc: Pc)
    ensures Rank(pc) <= 7
  {}

  /**
   From any reachable state with done set, whatever happens next: the reader needs
   a bounded number of steps to exit and can always take the next one, at most one
   more Subscribe call begins, and no stream opened from then on is read.
   */
  lemma AfterCancel(c: Config, s: State, run: seq<Action>)
    requires Reachable(c, s) && s.done && IsRun(Next(c), s, run)
    ensures ReaderSteps(run) <= 7 + 2 * Reads(run)
    ensures Exec(Next(c), s, run).pc != Exited ==> ReaderCanMove(Exec(Next(c), s, run))
    ensures SubscribesBegun(c, s, run) <= 1
    ensures var t := Exec(Next(c), s, run);
      |s.streams| <= |t.streams| && forall i :: |s.streams| <= i < |t.streams| ==> t.streams[i] == []
  {
    hide Inv, Apply, Enabled, ReaderCanMove;
    ReachableInv(c, s);
    ReaderExitsAfterCancel(c, s, run);
    AtMostOneSubscribeAfterDone(c, s, run);
    StreamsOpenedAfterDoneAreNotRead(c, s, run);
    ReachesAfter(Next(c), INITIAL, s, run);
    ReachableInv(c, Exec(Next(c), s, run));
    if Exec(Next(c), s, run).pc != Exited { ReaderIsNeverStuck(c, Exec(Next(c), s, run)); }
  }

  lemma StepReadsOn(c: Config, s: State, a: Action)
    requires Enabled(s, a) && InReadLoop(s.pc) && a != End
    ensures var t := Apply(c, s, a);
      InReadLoop(t.pc) && t.reader == s.reader && |t.streams| == |s.streams|
  {
    hide Guard, Accepts, ReaderStep;
  }

  /**
   Once in its read loop, the reader goes on reading the same stream until Read
   returns false: after a callback that returned or threw, after a request passed
   over, without a callback, and after a Cancel.
   */
  lemma {:induction false} ReadsOnUntilTheEnd(c: Config, s: State, run: seq<Action>)
    requires InReadLoop(s.pc) && IsRun(Next(c), s, run) && End !in run
    ensures var t := Exec(Next(c), s, run);
      InReadLoop(t.pc) && t.reader == s.reader && |t.streams| == |s.streams|
    decreases |run|
  {
    hide Apply, Enabled, InReadLoop;
    if run != [] {
      StepReadsOn(c, s, run[0]);
      ReadsOnUntilTheEnd(c, Apply(c, s, run[0]), run[1..]);
    }
  }

  // -------------------------------------------------------- a Cancel can end it

  /** A step of the reader that brings it nearer to its end once done is set. */
  function Homeward(s: State): Action {
    if s.pc == Reading then End
    else if s.pc.Handling? then Ran(Returned)
    else if s.pc == Subscribing then Subscribed(false)
    else Tick
  }

  lemma {:induction false} ReaderCanExit(c: Config, s: State) returns (run: seq<Action>)
    requires Inv(c, s) && s.done
    ensures |run| <= Rank(s.pc) && IsRun(Next(c), s, run) && Exec(Next(c), s, run).pc == Exited
    ensures forall i :: 0 <= i < |run| ==> OfReader(run[i]) && !run[i].Got?
    ensures Exec(Next(c), s, run).pendingCancels == s.pendingCancels && Exec(Next(c), s, run).cancels == s.cancels
    decreases Rank(s.pc)
  {
    hide Inv, Apply, Enabled, Rank, OfReader;
    if s.pc == Exited {
      run := [];
    } else {
      var a := Homeward(s);
      GoesHomeward(c, s);
      ActionKeepsInv(c, s, a);
      DoneStep(c, s, a);
      RankFalls(c, s, a);
      var rest := ReaderCanExit(c, Apply(c, s, a));
      RunCons(Next(c), s, a, rest);
      run := [a] + rest;
    }
  }

  lemma GoesHomeward(c: Config, s: State)
    requires s.pc != Exited
    ensures var a := Homeward(s);
      && Enabled(s, a) && OfReader(a) && !a.Got?
      && Apply(c, s, a).pendingCancels == s.pendingCancels && Apply(c, s, a).cancels == s.cancels
  {
    hide Guard, Min, Accepts;
  }

  /**
   A Cancel can be made in every reachable state: it sets done and cancels the
   context, and the reader can then exit in at most seven steps of its own.
   */
  lemma CancelCanEnd(c: Config, s: State) returns (run: seq<Action>)
    requires Reachable(c, s)
    ensures |run| <= 7 && IsRun(Next(c), s, [CancelStore] + ([CancelTry] + run))
    ensures forall i :: 0 <= i < |run| ==> OfReader(run[i]) && !run[i].Got?
    ensures var t := Exec(Next(c), s, [CancelStore] + ([CancelTry] + run));
      t.pc == Exited && t.done && t.cancels == s.cancels + 1 && t.pendingCancels == s.pendingCancels
  {
    hide Reachable, Inv;
    ReachableInv(c, s);
    assert Enabled(s, CancelStore);
    ActionKeepsInv(c, s, CancelStore);
    var s1 := Apply(c, s, CancelStore);
    assert Enabled(s1, CancelTry);
    ActionKeepsInv(c, s1, CancelTry);
    var s2 := Apply(c, s1, CancelTry);
    assert s2.done && s2.cancels == s.cancels + 1 && s2.pendingCancels == s.pendingCancels;
    hide Apply, Enabled, Rank, OfReader, IsRun, Exec;
    run := ReaderCanExit(c, s2);
    RankBound(s2.pc);
    RunCons(Next(c), s1, CancelTry, run);
    RunCons(Next(c), s, CancelStore, [CancelTry] + run);
    EndsOnlyAfter(c, s, [CancelStore] + ([CancelTry] + run));
  }

  lemma EndsOnlyAfter(c: Config, s: State, run: seq<Action>)
    requires Inv(c, s) && IsRun(Next(c), s, run) && Exec(Next(c), s, run).pc == Exited
    ensures Exec(Next(c), s, run).done
  {
    var next := Next(c);
    forall s, a | Inv(c, s) && next(s, a).Some?
      ensures Inv(c, next(s, a).value)
    {
      hide Inv, Enabled, Apply;
      ActionKeepsInv(c, s, a);
    }
    RunKeeps(next, s => Inv(c, s), s, run);
  }

  // ------------------------------------------------------------ resubscribing

  function Ticks(n: nat): seq<Action> {
    if n == 0 then [] else [Tick] + Ticks(n - 1)
  }

  lemma TickFirst(c: Config, s: State, n: nat)
    requires Enabled(s, Tick) && IsRun(Next(c), Apply(c, s, Tick), Ticks(n))
    ensures IsRun(Next(c), s, Ticks(n + 1))
    ensures Exec(Next(c), s, Ticks(n + 1)) == Exec(Next(c), Apply(c, s, Tick), Ticks(n))
  {
    hide Enabled, Apply;
    RunCons(Next(c), s, Tick, Ticks(n));
  }

  lemma NoTicks(c: Config, s: State)
    ensures IsRun(Next(c), s, Ticks(0)) && Exec(Next(c), s, Ticks(0)) == s
  {}

  /** The states n ticks lead through. */
  predicate TicksTo(c: Config, states: seq<State>) {
    forall i :: 0 <= i < |states| - 1 ==> Enabled(states[i], Tick) && Apply(c, states[i], Tick) == states[i + 1]
  }

  lemma {:induction false} TicksAreRun(c: Config, states: seq<State>)
    requires states != [] && TicksTo(c, states)
    ensures IsRun(Next(c), states[0], Ticks(|states| - 1))
    ensures Exec(Next(c), states[0], Ticks(|states| - 1)) == states[|states| - 1]
    decreases |states|
  {
    hide Apply, Enabled;
    if |states| == 1 {
      NoTicks(c, states[0]);
    } else {
      assert TicksTo(c, states[1..]) by {
        forall i | 0 <= i < |states| - 2
          ensures Enabled(states[1..][i], Tick) && Apply(c, states[1..][i], Tick) == states[1..][i + 1]
        {
          assert Enabled(states[i + 1], Tick) && Apply(c, states[i + 1], Tick) == states[i + 2];
        }
      }
      TicksAreRun(c, states[1..]);
      TickFirst(c, states[0], |states| - 2);
    }
  }

  // One tick of the reader, position by position, while done is clear.

  lemma TickOfTheRead(c: Config, s: State)
    requires !s.done
    ensures s.pc == OuterCheck ==> Ticked(c, s, s.(pc := Reading))
    ensures s.pc == Finishing ==> Ticked(c, s, s.(pc := AfterFinish))
    ensures s.pc == AfterFinish ==> Ticked(c, s, s.(pc := InnerCheck, backoff := 1, failures := 0, slept := []))
  {}

  lemma TickOfTheWait(c: Config, s: State)
    requires !s.done
    ensures s.pc == InnerCheck ==> Ticked(c, s, s.(pc := Sleeping))
    ensures s.pc == Sleeping ==> Ticked(c, s, s.(pc := AfterSleep, slept := s.slept + [s.backoff]))
    ensures s.pc == AfterSleep ==> Ticked(c, s, s.(pc := Committed))
    ensures s.pc == Committed ==> Ticked(c, s, s.(pc := Subscribing))
  {}

  lemma TickOfTheResult(c: Config, s: State)
    ensures s.pc == Doubling ==> Ticked(c, s, s.(pc := InnerCheck, backoff := Min(s.backoff * 2, 30)))
    ensures s.pc.SetCtx? ==> Ticked(c, s, s.(pc := SetReader(s.pc.stream), ctx := s.pc.stream))
    ensures s.pc.SetReader? ==> Ticked(c, s, s.(pc := AfterInner(true), reader := s.pc.stream))
    ensures s.pc == AfterInner(true) ==> Ticked(c, s, s.(pc := OuterCheck))
  {
    hide Min;
  }

  predicate Ticked(c: Config, s: State, t: State) { Enabled(s, Tick) && Apply(c, s, Tick) == t }

  lemma TickedAll(c: Config, states: seq<State>)
    requires forall i :: 0 <= i < |states| - 1 ==> Ticked(c, states[i], states[i + 1])
    ensures TicksTo(c, states)
  {
    hide Enabled, Apply;
    forall i | 0 <= i < |states| - 1
      ensures Enabled(states[i], Tick) && Apply(c, states[i], Tick) == states[i + 1]
    {
      assert Ticked(c, states[i], states[i + 1]);
    }
  }

  lemma SuccessTicks(c: Config, s: State) returns (states: seq<State>)
    requires s.pc == Subscribing && !s.done
    ensures |states| == 5 && TicksTo(c, states)
    ensures states[0] == Apply(c, s, Subscribed(true))
    ensures var t := states[4];
      t.pc == Reading && t.reader == t.ctx == |s.streams| && t.streams == s.streams + [[]] && t.deliveries == s.deliveries
  {
    var s0 := s.(pc := SetCtx(|s.streams|), streams := s.streams + [[]]);
    assert Apply(c, s, Subscribed(true)) == s0;
    hide Apply, Enabled, Ticked, TicksTo;
    var s1 := s0.(pc := SetReader(|s.streams|), ctx := |s.streams|);
    var s2 := s1.(pc := AfterInner(true), reader := |s.streams|);
    var s3, s4 := s2.(pc := OuterCheck), s2.(pc := Reading);
    TickOfTheResult(c, s0);
    TickOfTheResult(c, s1);
    TickOfTheResult(c, s2);
    TickOfTheRead(c, s3);
    states := [s0, s1, s2, s3, s4];
    TickedAll(c, states);
  }

  /** Unless a Cancel comes, a Subscribe that succeeds is followed by reading the new stream, from its start. */
  lemma SuccessReadsTheNewStream(c: Config, s: State)
    requires s.pc == Subscribing && !s.done
    ensures var run := [Subscribed(true)] + Ticks(4);
      && IsRun(Next(c), s, run)
      && var t := Exec(Next(c), s, run);
         t.pc == Reading && t.reader == t.ctx == |s.streams| && t.streams == s.streams + [[]] && t.deliveries == s.deliveries
  {
    assert Enabled(s, Subscribed(true));
    hide Apply, Enabled, TicksTo, IsRun, Exec, Ticks;
    var states := SuccessTicks(c, s);
    TicksAreRun(c, states);
    RunCons(Next(c), s, Subscribed(true), Ticks(4));
  }

  lemma EndTicks(c: Config, s: State) returns (states: seq<State>)
    requires s.pc == Reading && !s.done
    ensures |states| == 7 && TicksTo(c, states)
    ensures states[0] == Apply(c, s, End)
    ensures var t := states[6];
      t.pc == Subscribing && t.slept == [1] && t.failures == 0 && t.streams == s.streams
  {
    var s0 := s.(pc := Finishing);
    assert Apply(c, s, End) == s0;
    hide Apply, Enabled, Ticked, TicksTo;
    var s1 := s0.(pc := AfterFinish);
    var s2 := s0.(pc := InnerCheck, backoff := 1, failures := 0, slept := []);
    var s3, s4 := s2.(pc := Sleeping), s2.(pc := AfterSleep, slept := [1]);
    var s5, s6 := s4.(pc := Committed), s4.(pc := Subscribing);
    TickOfTheRead(c, s0);
    TickOfTheRead(c, s1);
    TickOfTheWait(c, s2);
    TickOfTheWait(c, s3);
    assert [] + [1] == [1];
    TickOfTheWait(c, s4);
    TickOfTheWait(c, s5);
    states := [s0, s1, s2, s3, s4, s5, s6];
    TickedAll(c, states);
  }

  /** Unless a Cancel comes, the end of a stream is followed by a Subscribe after a wait of one second. */
  lemma EndLeadsToSubscribe(c: Config, s: State)
    requires s.pc == Reading && !s.done
    ensures var run := [End] + Ticks(6);
      && IsRun(Next(c), s, run)
      && var t := Exec(Next(c), s, run);
         t.pc == Subscribing && t.slept == [1] && t.failures == 0 && t.streams == s.streams
  {
    assert Enabled(s, End);
    hide Apply, Enabled, TicksTo, IsRun, Exec, Ticks;
    var states := EndTicks(c, s);
    TicksAreRun(c, states);
    RunCons(Next(c), s, End, Ticks(6));
  }

  lemma FailureTicks(c: Config, s: State) returns (states: seq<State>)
    requires s.pc == Subscribing && !s.done
    ensures |states| == 6 && TicksTo(c, states)
    ensures states[0] == Apply(c, s, Subscribed(false))
    ensures var t := states[5];
      t.pc == Subscribing && t.slept == s.slept + [Min(s.backoff * 2, 30)] && t.failures == s.failures + 1
      && t.streams == s.streams
  {
    var s0 := s.(pc := Doubling, failures := s.failures + 1);
    assert Apply(c, s, Subscribed(false)) == s0;
    hide Apply, Enabled, Ticked, TicksTo, Min;
    var s1 := s0.(pc := InnerCheck, backoff := Min(s.backoff * 2, 30));
    var s2 := s1.(pc := Sleeping);
    var s3 := s1.(pc := AfterSleep, slept := s.slept + [s1.backoff]);
    var s4, s5 := s3.(pc := Committed), s3.(pc := Subscribing);
    TickOfTheResult(c, s0);
    TickOfTheWait(c, s1);
    TickOfTheWait(c, s2);
    TickOfTheWait(c, s3);
    TickOfTheWait(c, s4);
    states := [s0, s1, s2, s3, s4, s5];
    TickedAll(c, states);
  }

  /** Unless a Cancel comes, a Subscribe that fails is tried again after one doubled wait. */
  lemma FailureIsTriedAgain(c: Config, s: State)
    requires s.pc == Subscribing && !s.done
    ensures var run := [Subscribed(false)] + Ticks(5);
      && IsRun(Next(c), s, run)
      && var t := Exec(Next(c), s, run);
         t.pc == Subscribing && t.slept == s.slept + [Min(s.backoff * 2, 30)] && t.failures == s.failures + 1
         && t.streams == s.streams
  {
    assert Enabled(s, Subscribed(false));
    hide Apply, Enabled, TicksTo, IsRun, Exec, Ticks, Min;
    var states := FailureTicks(c, s);
    TicksAreRun(c, states);
    RunCons(Next(c), s, Subscribed(false), Ticks(5));
  }

  // ------------------------------------------------ the server ends the stream

  lemma Reach(c: Config, s: State, a: Action) returns (t: State)
    requires Reachable(c, s) && Enabled(s, a)
    ensures t == Apply(c, s, a) && Reachable(c, t)
  {
    hide Apply, Enabled;
    ReachesNext(Next(c), INITIAL, s, a);
    t := Apply(c, s, a);
  }

  /** The server may have ended the stream while done is clear: the reader goes on to resubscribe. */
  lemma EndedStreamIsNotDone(c: Config) returns (s: State)
    ensures Reachable(c, s) && s.pc == Sleeping && s.streams == [[]] && !s.done
  {
    s := INITIAL;
    ReachesInitial(Next(c), INITIAL);
    assert Reachable(c, s);
    hide Reachable;
    s := Reach(c, s, Tick);
    s := Reach(c, s, End);
    assert s.pc == Finishing;
    s := Reach(c, s, Tick);
    s := Reach(c, s, Tick);
    assert s.pc == InnerCheck;
    s := Reach(c, s, Tick);
  }
}
