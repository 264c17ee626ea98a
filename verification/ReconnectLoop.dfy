/**
 The reconnection loop: a controller thread that calls Start and Stop, and the
 background bodies of Run that Start spawns.  They share a mutex, the flags
 running and stop_requested, and the thread handle.

 The protocol is a step system.  Each action is one atomic access of a thread;
 a run is any sequence of enabled actions, so a statement about all runs is a
 statement about all interleavings.  There is one controller, and connect_fn
 calls neither Start nor Stop.
 */
module ReconnectLoop {

  import opened Wrappers
  import opened Runs

  /** Where the body of Run stands. */
  datatype BodyPc =
    | LoopHead      // about to load stop_requested
    | AttemptCheck  // about to compare attempt with max_attempts
    | Calling       // inside connect_fn
    | WantWait      // about to lock the mutex for the backoff wait
    | HoldWait(timedOut: bool)  // holds the mutex, about to evaluate the wait predicate
    | Blocking      // holds the mutex, about to block and let go of it in one step
    | Waiting       // blocked in the wait, mutex released
    | WantLeave     // about to lock the mutex to clear running
    | Leaving       // holds the mutex, about to clear running
    | Unlocking     // holds the mutex, running is clear
    | Ending        // past its last use of shared state
    | Ended

  /** A completed wait: the attempt it was computed for, and whether it ran out. */
  datatype Wait = Wait(attempt: int, ranOut: bool)

  /**
   backoff is the attempt the current wait is computed for.  results lists the
   completed connect_fn calls of this body, true for success, and waits its
   completed waits; neither is read by any step.
   */
  datatype Body = Body(pc: BodyPc, attempt: int, backoff: int, results: seq<bool>, waits: seq<Wait>)

  const FRESH := Body(LoopHead, 0, 0, [], [])

  datatype CtlPc =
    | Idle
    | StartWant | StartCheck | StartClear | StartJoin | StartSetRunning | StartSpawn | StartUnlock
    | StopWant | StopCheck | StopSet | StopNotify | StopUnlock | StopJoin | StopReturn

  datatype Owner = Free | Controller | BodyOwns(index: nat)

  datatype State = State(
    running: bool,
    stopRequested: bool,
    owner: Owner,
    notified: bool,        // the blocked wait has been notified
    thread: Option<nat>,   // the joinable handle, naming the body it runs
    bodies: seq<Body>,     // every body ever spawned
    ctl: CtlPc,
    // History, read by no step:
    stopped: bool,         // Stop has returned and Start has not been called since
    sawRunning: bool,      // what the last Stop found under the lock
    sawThread: bool
  )

  datatype Action =
    | BeginStart
    | BeginStop
    | Ctl                                // one step of the controller
    | Step(body: nat, outcome: bool)     // one step of a body; outcome is what connect_fn
                                         // returns, or whether a blocked wait has timed out
    | Spurious(body: nat)                // a blocked wait wakes for no reason

  const INITIAL := State(false, false, Free, false, None, [], Idle, false, false, false)

  predicate BodyHolds(pc: BodyPc) { pc.HoldWait? || pc == Blocking || pc == Leaving || pc == Unlocking }

  predicate BodyWants(pc: BodyPc) { pc == WantWait || pc == Waiting || pc == WantLeave }

  predicate CtlHolds(pc: CtlPc) {
    pc == StartCheck || pc == StartClear || pc == StartJoin || pc == StartSetRunning || pc == StartSpawn
    || pc == StartUnlock || pc == StopCheck || pc == StopSet || pc == StopNotify || pc == StopUnlock
  }

  /** A join returns only once the joined body has ended. */
  predicate JoinReturns(s: State) {
    s.thread.Some? ==> s.thread.value < |s.bodies| && s.bodies[s.thread.value].pc == Ended
  }

  predicate Enabled(s: State, a: Action) {
    match a
    case BeginStart => s.ctl == Idle
    case BeginStop => s.ctl == Idle
    case Ctl =>
      && s.ctl != Idle
      && (s.ctl == StartWant || s.ctl == StopWant ==> s.owner == Free)
      && (s.ctl == StartJoin || s.ctl == StopJoin ==> JoinReturns(s))
    case Step(i, timeout) =>
      && i < |s.bodies| && s.bodies[i].pc != Ended && (BodyWants(s.bodies[i].pc) ==> s.owner == Free)
      && (s.bodies[i].pc == Waiting ==> s.notified || timeout)
    case Spurious(i) => i < |s.bodies| && s.bodies[i].pc == Waiting && s.owner == Free
  }

  /** Where the controller goes, given what it reads of running. */
  function NextCtl(pc: CtlPc, running: bool): CtlPc {
    match pc
    case Idle => Idle
    case StartWant => StartCheck
    case StartCheck => if running then StartUnlock else StartClear
    case StartClear => StartJoin
    case StartJoin => StartSetRunning
    case StartSetRunning => StartSpawn
    case StartSpawn => StartUnlock
    case StartUnlock => Idle
    case StopWant => StopCheck
    case StopCheck => if running then StopSet else StopReturn
    case StopSet => StopNotify
    case StopNotify => StopUnlock
    case StopUnlock => StopJoin
    case StopJoin => StopReturn
    case StopReturn => Idle
  }

  /** The owner of the mutex after the step: an early return of Stop lets go of it too. */
  function NextOwner(s: State): Owner {
    if s.ctl == StartWant || s.ctl == StopWant then Controller
    else if s.ctl == StartUnlock || s.ctl == StopUnlock || (s.ctl == StopCheck && !s.running) then Free
    else s.owner
  }

  function ApplyCtl(s: State): State {
    s.(ctl := NextCtl(s.ctl, s.running),
       owner := NextOwner(s),
       running := s.running || s.ctl == StartSetRunning,
       stopRequested := (s.stopRequested && s.ctl != StartClear) || s.ctl == StopSet,
       notified := if s.ctl == StopNotify then LastPc(s) == Waiting else s.notified,  // wakes who is blocked now
       thread := if s.ctl == StartJoin || s.ctl == StopJoin then None
                 else if s.ctl == StartSpawn then Some(|s.bodies|)
                 else s.thread,
       bodies := if s.ctl == StartSpawn then s.bodies + [FRESH] else s.bodies,
       stopped := s.stopped || s.ctl == StopReturn,
       sawRunning := if s.ctl == StopCheck then s.running else s.sawRunning,
       sawThread := if s.ctl == StopCheck then s.thread.Some? else s.sawThread)
  }

  /** The body after its step, given what it reads of the shared flags. */
  function NextBody(b: Body, stopRequested: bool, outcome: bool, maxAttempts: int): Body {
    match b.pc
    case LoopHead => b.(pc := if stopRequested then WantLeave else AttemptCheck)
    case AttemptCheck => b.(pc := if maxAttempts > 0 && b.attempt >= maxAttempts then WantLeave else Calling)
    case Calling =>
      if outcome then b.(pc := WantLeave, results := b.results + [true])
      else b.(pc := WantWait, results := b.results + [false], backoff := b.attempt, attempt := b.attempt + 1)
    case WantWait => b.(pc := HoldWait(false))
    case HoldWait(timedOut) =>
      if stopRequested || timedOut then b.(pc := LoopHead, waits := b.waits + [Wait(b.backoff, timedOut)])
      else b.(pc := Blocking)
    case Blocking => b.(pc := Waiting)
    case Waiting => b.(pc := HoldWait(outcome))
    case WantLeave => b.(pc := Leaving)
    case Leaving => b.(pc := Unlocking)
    case Unlocking => b.(pc := Ending)
    case Ending => b.(pc := Ended)
    case Ended => b
  }

  function ApplyStep(s: State, i: nat, outcome: bool, maxAttempts: int): State
    requires i < |s.bodies|
  {
    var b := s.bodies[i];
    var b' := NextBody(b, s.stopRequested, outcome, maxAttempts);
    s.(bodies := s.bodies[i := b'],
       owner := if BodyHolds(b'.pc) then BodyOwns(i) else if BodyHolds(b.pc) then Free else s.owner,
       notified := s.notified && b.pc != Waiting && b'.pc != Waiting,
       running := s.running && b.pc != Leaving)
  }

  function Apply(s: State, a: Action, maxAttempts: int): State
    requires Enabled(s, a)
  {
    match a
    case BeginStart => s.(ctl := StartWant, stopped := false)
    case BeginStop => s.(ctl := StopWant)
    case Ctl => ApplyCtl(s)
    case Step(i, outcome) => ApplyStep(s, i, outcome, maxAttempts)
    case Spurious(i) => ApplyStep(s, i, false, maxAttempts)
  }

  function Next(maxAttempts: int): System<State, Action> {
    (s: State, a: Action) => if Enabled(s, a) then Some(Apply(s, a, maxAttempts)) else None
  }

  // ---------------------------------------------------------------- invariant

  /** The body may still call connect_fn or clear running. */
  predicate Active(pc: BodyPc) { pc != Unlocking && pc != Ending && pc != Ended }

  predicate InLoop(pc: BodyPc) { Active(pc) && pc != WantLeave && pc != Leaving }

  /** Where the newest body stands; before the first Start, nowhere. */
  function LastPc(s: State): BodyPc {
    if s.bodies == [] then Ended else s.bodies[|s.bodies| - 1].pc
  }

  /** Only the last body lives, and it is the one the handle names. */
  predicate OneBody(s: State) {
    && (forall i :: 0 <= i < |s.bodies| - 1 ==> s.bodies[i].pc == Ended)
    && (s.thread.Some? ==> s.thread.value == |s.bodies| - 1)
    && (s.thread.None? ==> LastPc(s) == Ended)
  }

  predicate LockInv(s: State, pc: BodyPc) {
    && (s.owner == Controller <==> CtlHolds(s.ctl))
    && (BodyHolds(pc) ==> s.owner.BodyOwns? && s.owner.index == |s.bodies| - 1)
    && (s.owner.BodyOwns? ==> BodyHolds(pc))
  }

  predicate FlagInv(s: State, pc: BodyPc) {
    && (s.running <==> s.ctl == StartSpawn || Active(pc))
    && (s.ctl == StartClear || s.ctl == StartJoin || s.ctl == StartSetRunning ==> !s.running)
    && (s.ctl == StartSetRunning || s.ctl == StartSpawn ==> s.thread == None)
    && (s.ctl == StopSet ==> s.running && s.sawRunning)
    && (s.ctl == StopNotify || s.ctl == StopUnlock || s.ctl == StopJoin ==>
          s.stopRequested && s.sawRunning && s.thread.Some?)
  }

  /** Once Stop is returning, the loop is quiet; the handle is left over exactly if Stop did not join. */
  predicate StopInv(s: State) {
    && (s.stopped ==> s.ctl == Idle || s.ctl == StopWant || s.ctl == StopCheck || s.ctl == StopReturn)
    && (s.ctl == StopReturn || s.stopped ==> !s.running)
    && (s.ctl == StopReturn || s.stopped ==> (s.thread.Some? <==> !s.sawRunning && s.sawThread))
  }

  predicate InWait(pc: BodyPc) { pc == WantWait || pc.HoldWait? || pc == Blocking || pc == Waiting }

  /** All calls of a body but a last one that succeeded. */
  function Failures(b: Body): int {
    if b.results != [] && b.results[|b.results| - 1] then |b.results| - 1 else |b.results|
  }

  /** The last wait of the body did not run out. */
  predicate CutShort(b: Body) { b.waits != [] && !b.waits[|b.waits| - 1].ranOut }

  /** A wait is cut short only by a request to stop that the body is about to see. */
  predicate Quits(b: Body, stopRequested: bool) { CutShort(b) && b.pc == LoopHead ==> stopRequested }

  predicate BodyInv(b: Body, maxAttempts: int) { CallsInv(b, maxAttempts) && WaitsInv(b) }

  /** The connect_fn calls of one body: all but the last failed, and the limit is kept. */
  predicate CallsInv(b: Body, maxAttempts: int) {
    && b.attempt >= 0
    && (forall j :: 0 <= j < |b.results| - 1 ==> !b.results[j])
    && (InLoop(b.pc) ==> b.attempt == |b.results| && (b.results != [] ==> !b.results[|b.results| - 1]))
    && (maxAttempts > 0 ==> |b.results| <= maxAttempts)
    && (maxAttempts > 0 && b.pc == Calling ==> |b.results| < maxAttempts)
  }

  /** Its waits: one for each failed call, and all but the last ran out. */
  predicate WaitsInv(b: Body) {
    && (forall k :: 0 <= k < |b.waits| ==> b.waits[k].attempt == k && (k < |b.waits| - 1 ==> b.waits[k].ranOut))
    && |b.waits| == Failures(b) - (if InWait(b.pc) then 1 else 0)
    && (InWait(b.pc) ==> b.backoff == |b.results| - 1)
    && (CutShort(b) ==> b.pc == LoopHead || !InLoop(b.pc))
  }

  /** A body is asked to stop only by a Stop that is still waiting for it: Start forgets old requests. */
  predicate AskInv(s: State, pc: BodyPc) {
    && (s.ctl == StartJoin || s.ctl == StartSetRunning || s.ctl == StartSpawn ==> !s.stopRequested)
    && (Active(pc) && s.stopRequested ==> s.ctl == StopNotify || s.ctl == StopUnlock || s.ctl == StopJoin)
    && (pc == Blocking ==> !s.stopRequested)
    && (pc == Waiting && s.stopRequested && s.ctl != StopNotify ==> s.notified)
  }

  predicate Inv(s: State, maxAttempts: int) {
    && OneBody(s) && LockInv(s, LastPc(s)) && FlagInv(s, LastPc(s)) && StopInv(s) && AskInv(s, LastPc(s))
    && (s.bodies != [] ==> Quits(s.bodies[|s.bodies| - 1], s.stopRequested))
    && forall i :: 0 <= i < |s.bodies| ==> BodyInv(s.bodies[i], maxAttempts)
  }

  lemma CtlKeepsInv(s: State, maxAttempts: int)
    requires Inv(s, maxAttempts) && Enabled(s, Ctl)
    ensures Inv(ApplyCtl(s), maxAttempts)
  {
    hide BodyInv;
    if s.ctl == StartSpawn {
      SpawnKeepsInv(s, maxAttempts);
    } else {
      CtlKeepsFlags(s, LastPc(s));
      CtlKeepsAsk(s, LastPc(s));
      CtlKeepsRequest(s, LastPc(s));
      hide ApplyCtl, OneBody, LockInv, FlagInv, StopInv, AskInv, CutShort;
    }
  }

  lemma SpawnKeepsInv(s: State, maxAttempts: int)
    requires Inv(s, maxAttempts) && s.ctl == StartSpawn
    ensures Inv(ApplyCtl(s), maxAttempts)
  {
    SpawnKeepsFlags(s);
    assert BodyInv(FRESH, maxAttempts) && Quits(FRESH, s.stopRequested);
    hide BodyInv, OneBody, LockInv, FlagInv, StopInv, AskInv, LastPc, Quits;
  }

  lemma SpawnKeepsFlags(s: State)
    requires s.ctl == StartSpawn && OneBody(s)
    requires LockInv(s, LastPc(s)) && FlagInv(s, LastPc(s)) && StopInv(s) && AskInv(s, LastPc(s))
    ensures var s' := ApplyCtl(s);
      OneBody(s') && LockInv(s', LastPc(s')) && FlagInv(s', LastPc(s')) && StopInv(s') && AskInv(s', LastPc(s'))
  {
    var s' := ApplyCtl(s);
    SpawnedBody(s);
    assert FlagInv(s, Ended) && AskInv(s, Ended);
    assert s'.owner == s.owner && s'.ctl == StartUnlock && s'.running == s.running && s'.stopRequested == s.stopRequested;
    assert s'.stopped == s.stopped && s'.notified == s.notified && s'.thread.Some?;
    hide ApplyCtl, LastPc, OneBody;
  }

  lemma SpawnedBody(s: State)
    requires s.ctl == StartSpawn && OneBody(s) && s.thread == None
    ensures LastPc(s) == Ended && LastPc(ApplyCtl(s)) == LoopHead && OneBody(ApplyCtl(s))
  {}

  lemma CtlKeepsFlags(s: State, pc: BodyPc)
    requires Enabled(s, Ctl) && s.ctl != StartSpawn
    requires pc == LastPc(s) && OneBody(s)
    requires LockInv(s, pc) && FlagInv(s, pc) && StopInv(s)
    ensures var s' := ApplyCtl(s);
      s'.bodies == s.bodies && OneBody(s') && LockInv(s', pc) && FlagInv(s', pc) && StopInv(s')
  {
    CtlKeepsLock(s, pc);
    if s.ctl == StopWant || s.ctl == StopCheck || s.ctl == StopSet || s.ctl == StopNotify
      || s.ctl == StopUnlock || s.ctl == StopJoin || s.ctl == StopReturn {
      StopKeepsFlags(s, pc);
    } else {
      StartKeepsFlags(s, pc);
    }
  }

  lemma CtlKeepsLock(s: State, pc: BodyPc)
    requires Enabled(s, Ctl) && s.ctl != StartSpawn && LockInv(s, pc)
    ensures LockInv(ApplyCtl(s), pc) && ApplyCtl(s).bodies == s.bodies
  {}

  lemma StartKeepsFlags(s: State, pc: BodyPc)
    requires Enabled(s, Ctl)
    requires s.ctl == StartWant || s.ctl == StartCheck || s.ctl == StartClear || s.ctl == StartJoin
          || s.ctl == StartSetRunning || s.ctl == StartUnlock
    requires pc == LastPc(s) && OneBody(s) && FlagInv(s, pc) && StopInv(s)
    ensures var s' := ApplyCtl(s);
      OneBody(s') && FlagInv(s', pc) && StopInv(s')
  {}

  lemma StopKeepsFlags(s: State, pc: BodyPc)
    requires Enabled(s, Ctl)
    requires s.ctl == StopWant || s.ctl == StopCheck || s.ctl == StopSet || s.ctl == StopNotify
          || s.ctl == StopUnlock || s.ctl == StopJoin || s.ctl == StopReturn
    requires pc == LastPc(s) && OneBody(s) && FlagInv(s, pc) && StopInv(s)
    ensures var s' := ApplyCtl(s);
      OneBody(s') && FlagInv(s', pc) && StopInv(s')
  {}

  lemma {:induction false} StepKeepsInv(s: State, i: nat, outcome: bool, maxAttempts: int)
    requires Inv(s, maxAttempts) && i < |s.bodies| && s.bodies[i].pc != Ended
    requires BodyWants(s.bodies[i].pc) ==> s.owner == Free
    ensures Inv(ApplyStep(s, i, outcome, maxAttempts), maxAttempts)
  {
    assert i == |s.bodies| - 1;
    var s' := ApplyStep(s, i, outcome, maxAttempts);
    var b, b' := s.bodies[i], s'.bodies[i];
    assert LastPc(s) == b.pc && LastPc(s') == b'.pc;
    StepKeepsBody(b, s.stopRequested, outcome, maxAttempts);
    StepKeepsFlags(s, i, outcome, maxAttempts);
  }

  lemma StepKeepsBody(b: Body, stopRequested: bool, outcome: bool, maxAttempts: int)
    requires BodyInv(b, maxAttempts) && Quits(b, stopRequested)
    ensures BodyInv(NextBody(b, stopRequested, outcome, maxAttempts), maxAttempts)
    ensures Quits(NextBody(b, stopRequested, outcome, maxAttempts), stopRequested)
  {
    StepKeepsCalls(b, stopRequested, outcome, maxAttempts);
    StepKeepsWaits(b, stopRequested, outcome, maxAttempts);
    hide NextBody, CallsInv, WaitsInv, Quits;
  }

  lemma StepKeepsCalls(b: Body, stopRequested: bool, outcome: bool, maxAttempts: int)
    requires CallsInv(b, maxAttempts)
    ensures CallsInv(NextBody(b, stopRequested, outcome, maxAttempts), maxAttempts)
  {
    var b' := NextBody(b, stopRequested, outcome, maxAttempts);
    assert b'.results == if b.pc == Calling then b.results + [outcome] else b.results;
  }

  lemma StepKeepsWaits(b: Body, stopRequested: bool, outcome: bool, maxAttempts: int)
    requires CallsInv(b, maxAttempts) && WaitsInv(b) && Quits(b, stopRequested)
    ensures var b' := NextBody(b, stopRequested, outcome, maxAttempts);
      WaitsInv(b') && Quits(b', stopRequested)
  {
    hide CallsInv, WaitsInv, Quits;
    var b' := NextBody(b, stopRequested, outcome, maxAttempts);
    if b.pc == Calling {
      CallKeepsWaits(b, b', outcome, maxAttempts);
    } else if b.pc.HoldWait? && b'.pc == LoopHead {
      WaitIsAdded(b, b', maxAttempts);
    } else {
      OtherKeepsWaits(b, b', stopRequested);
    }
    QuitsNext(b, stopRequested, outcome, maxAttempts);
  }

  lemma CallKeepsWaits(b: Body, b': Body, outcome: bool, maxAttempts: int)
    requires CallsInv(b, maxAttempts) && WaitsInv(b) && b.pc == Calling
    requires b'.results == b.results + [outcome] && b'.waits == b.waits
    requires if outcome then b'.pc == WantLeave else b'.pc == WantWait && b'.backoff == b.attempt
    ensures WaitsInv(b')
  {}

  lemma WaitIsAdded(b: Body, b': Body, maxAttempts: int)
    requires CallsInv(b, maxAttempts) && WaitsInv(b) && b.pc.HoldWait? && b'.pc == LoopHead
    requires b'.results == b.results && b'.waits == b.waits + [Wait(b.backoff, b.pc.timedOut)]
    ensures WaitsInv(b')
  {}

  lemma OtherKeepsWaits(b: Body, b': Body, stopRequested: bool)
    requires WaitsInv(b) && Quits(b, stopRequested)
    requires b'.results == b.results && b'.waits == b.waits && b'.backoff == b.backoff
    requires InWait(b'.pc) <==> InWait(b.pc)
    requires b.pc == LoopHead && stopRequested ==> !InLoop(b'.pc)
    requires !InLoop(b.pc) ==> !InLoop(b'.pc)
    ensures WaitsInv(b')
  {}

  lemma QuitsNext(b: Body, stopRequested: bool, outcome: bool, maxAttempts: int)
    requires WaitsInv(b)
    ensures Quits(NextBody(b, stopRequested, outcome, maxAttempts), stopRequested)
  {}

  /** A request is taken back only after the body it was made to has left its loop. */
  lemma CtlKeepsRequest(s: State, pc: BodyPc)
    requires Enabled(s, Ctl) && FlagInv(s, pc)
    ensures s.stopRequested && !ApplyCtl(s).stopRequested ==> !Active(pc)
  {}

  lemma CtlKeepsAsk(s: State, pc: BodyPc)
    requires Enabled(s, Ctl) && s.ctl != StartSpawn
    requires pc == LastPc(s) && OneBody(s) && LockInv(s, pc) && FlagInv(s, pc) && AskInv(s, pc)
    ensures AskInv(ApplyCtl(s), pc)
  {}

  lemma StepKeepsFlags(s: State, i: nat, outcome: bool, maxAttempts: int)
    requires i == |s.bodies| - 1 && s.bodies[i].pc != Ended && (BodyWants(s.bodies[i].pc) ==> s.owner == Free)
    requires LastPc(s) == s.bodies[i].pc
    requires LockInv(s, s.bodies[i].pc) && FlagInv(s, s.bodies[i].pc) && StopInv(s) && AskInv(s, s.bodies[i].pc)
    ensures var s' := ApplyStep(s, i, outcome, maxAttempts);
      LockInv(s', s'.bodies[i].pc) && FlagInv(s', s'.bodies[i].pc) && StopInv(s') && AskInv(s', s'.bodies[i].pc)
  {}

  lemma BeginKeepsInv(s: State, a: Action, maxAttempts: int)
    requires Inv(s, maxAttempts) && Enabled(s, a) && (a == BeginStart || a == BeginStop)
    ensures Inv(Apply(s, a, maxAttempts), maxAttempts)
  {
    var s' := Apply(s, a, maxAttempts);
    assert s'.bodies == s.bodies && s'.thread == s.thread && s'.stopRequested == s.stopRequested;
    SameBodies(s, s');
    BeginKeepsFlags(s, a, LastPc(s), maxAttempts);
    hide Apply, BodyInv, OneBody, LockInv, FlagInv, StopInv, AskInv, LastPc, Quits;
  }

  lemma BeginKeepsFlags(s: State, a: Action, pc: BodyPc, maxAttempts: int)
    requires Enabled(s, a) && (a == BeginStart || a == BeginStop)
    requires LockInv(s, pc) && FlagInv(s, pc) && StopInv(s) && AskInv(s, pc)
    ensures var s' := Apply(s, a, maxAttempts);
      LockInv(s', pc) && FlagInv(s', pc) && StopInv(s') && AskInv(s', pc)
  {}

  lemma ActionKeepsInv(s: State, a: Action, maxAttempts: int)
    requires Inv(s, maxAttempts) && Enabled(s, a)
    ensures Inv(Apply(s, a, maxAttempts), maxAttempts)
  {
    hide Inv, ApplyCtl, ApplyStep;
    match a
    case BeginStart => BeginKeepsInv(s, a, maxAttempts);
    case BeginStop => BeginKeepsInv(s, a, maxAttempts);
    case Ctl => CtlKeepsInv(s, maxAttempts);
    case Step(i, outcome) => StepKeepsInv(s, i, outcome, maxAttempts);
    case Spurious(i) => StepKeepsInv(s, i, false, maxAttempts);
  }

  // -------------------------------------------------------------------- runs

  ghost predicate Reachable(s: State, maxAttempts: int) { Reaches(Next(maxAttempts), INITIAL, s) }

  lemma ReachableInv(s: State, maxAttempts: int)
    requires Reachable(s, maxAttempts)
    ensures Inv(s, maxAttempts)
  {
    var next := Next(maxAttempts);
    forall s, a | Inv(s, maxAttempts) && next(s, a).Some?
      ensures Inv(next(s, a).value, maxAttempts)
    {
      ActionKeepsInv(s, a, maxAttempts);
    }
    assert Inv(INITIAL, maxAttempts);
    ReachableKeeps(next, s => Inv(s, maxAttempts), INITIAL, s);
  }

  lemma BodyIsRight(s: State, maxAttempts: int, i: nat)
    requires Inv(s, maxAttempts) && i < |s.bodies|
    ensures BodyInv(s.bodies[i], maxAttempts)
    ensures s.bodies[i].pc == Ended || (i == |s.bodies| - 1 && Quits(s.bodies[i], s.stopRequested))
  {
    hide LockInv, FlagInv, StopInv, AskInv, BodyInv, Quits;
  }

  /** At no time are two bodies of Run alive. */
  lemma AtMostOneBodyLives(s: State, maxAttempts: int, i: nat, j: nat)
    requires Reachable(s, maxAttempts) && i < |s.bodies| && j < |s.bodies|
    requires s.bodies[i].pc != Ended && s.bodies[j].pc != Ended
    ensures i == j
  {
    ReachableInv(s, maxAttempts);
  }

  /**
   Start joins while it holds the mutex: the body it waits for has no lock
   acquisition left.  And it never assigns over a joinable handle.
   */
  lemma StartJoinIsSafe(s: State, maxAttempts: int)
    requires Reachable(s, maxAttempts)
    ensures s.ctl == StartJoin && s.thread.Some? ==>
      s.thread.value < |s.bodies| && s.bodies[s.thread.value].pc in {Ending, Ended}
    ensures s.ctl == StartSpawn ==> s.thread == None
  {
    ReachableInv(s, maxAttempts);
  }

  /** The thread that moves when the controller is inside Start or Stop. */
  function NextToMove(s: State): Action {
    if Enabled(s, Ctl) then Ctl else Step(if s.bodies == [] then 0 else |s.bodies| - 1, false)
  }

  /**
   While the controller is inside Start or Stop, some thread can move, and without a
   wait timing out or waking for no reason: no deadlock and no lost wakeup.
   */
  lemma NoDeadlock(s: State, maxAttempts: int)
    requires Reachable(s, maxAttempts) && s.ctl != Idle
    ensures Enabled(s, NextToMove(s)) && (NextToMove(s) == Ctl || NextToMove(s).Step?)
  {
    hide Reachable, OneBody, LockInv, FlagInv, AskInv, StopInv, BodyInv, Enabled;
    ReachableInv(s, maxAttempts);
    SomeoneMoves(s, LastPc(s));
  }

  lemma SomeoneMoves(s: State, pc: BodyPc)
    requires s.ctl != Idle && pc == LastPc(s)
    requires OneBody(s) && LockInv(s, pc) && FlagInv(s, pc) && AskInv(s, pc)
    ensures Enabled(s, Ctl) || (s.bodies != [] && Enabled(s, Step(|s.bodies| - 1, false)))
  {
    if s.owner.BodyOwns? {
      assert BodyHolds(pc);
    } else if s.ctl == StartJoin || s.ctl == StopJoin {
      assert s.owner == Free || s.owner == Controller;
      if pc == Ended { assert JoinReturns(s); }
    }
  }

  /** Each body made at most max_attempts calls, and only the last can have succeeded. */
  lemma AttemptsAreLimited(s: State, maxAttempts: int, i: nat)
    requires Reachable(s, maxAttempts) && i < |s.bodies|
    ensures maxAttempts > 0 ==> |s.bodies[i].results| <= maxAttempts
    ensures maxAttempts > 0 && s.bodies[i].pc == Calling ==> |s.bodies[i].results| < maxAttempts
    ensures forall j :: 0 <= j < |s.bodies[i].results| - 1 ==> !s.bodies[i].results[j]
  {
    hide Reachable, Inv;
    ReachableInv(s, maxAttempts);
    BodyIsRight(s, maxAttempts, i);
  }

  /**
   After each failed call, and only then, a body waits; the k-th wait is that of
   attempt k, and it is over before the next call.
   */
  predicate WaitsMatchFailures(b: Body) {
    && (forall k :: 0 <= k < |b.waits| ==> b.waits[k].attempt == k && k < |b.results| && !b.results[k])
    && (forall k :: 0 <= k < |b.results| && !b.results[k] ==>
          k < |b.waits| || (k == |b.results| - 1 && InWait(b.pc) && b.backoff == k))
    && (b.pc == Calling ==> |b.waits| == |b.results|)
  }

  lemma BodyWaitsMatch(b: Body, maxAttempts: int)
    requires BodyInv(b, maxAttempts)
    ensures WaitsMatchFailures(b)
  {}

  /**
   Every wait a body went on after had run out; one that was cut short is its last,
   and the body is leaving its loop or about to see the request to stop.
   */
  lemma WaitsFollowFailures(s: State, maxAttempts: int, i: nat)
    requires Reachable(s, maxAttempts) && i < |s.bodies|
    ensures var b := s.bodies[i];
      && WaitsMatchFailures(b)
      && (forall k :: 0 <= k < |b.waits| - 1 ==> b.waits[k].ranOut)
      && (CutShort(b) ==> !InLoop(b.pc) || (b.pc == LoopHead && s.stopRequested))
  {
    hide Reachable, Inv, WaitsMatchFailures;
    ReachableInv(s, maxAttempts);
    BodyIsRight(s, maxAttempts, i);
    BodyWaitsMatch(s.bodies[i], maxAttempts);
  }

  predicate TimesOut(s: State, a: Action) {
    a.Step? && a.outcome && a.body < |s.bodies| && s.bodies[a.body].pc == Waiting
  }

  /** No wait times out in the run. */
  ghost predicate Untimed(s: State, run: seq<Action>, maxAttempts: int)
    requires IsRun(Next(maxAttempts), s, run)
    decreases |run|
  {
    run == [] || (!TimesOut(s, run[0]) && Untimed(Apply(s, run[0], maxAttempts), run[1..], maxAttempts))
  }

  /** The newest body waits after its last call, and nothing has ended the wait yet. */
  predicate KeptWaiting(s: State, n: nat, results: seq<bool>) {
    && 0 < n == |s.bodies| && !s.stopRequested && !InStop(s.ctl)
    && var b := s.bodies[n - 1];
       InWait(b.pc) && b.pc != HoldWait(true) && b.results == results
  }

  lemma StepKeepsWaiting(s: State, a: Action, n: nat, results: seq<bool>, maxAttempts: int)
    requires Inv(s, maxAttempts) && Enabled(s, a) && a != BeginStop && !TimesOut(s, a) && KeptWaiting(s, n, results)
    ensures KeptWaiting(Apply(s, a, maxAttempts), n, results)
  {
    hide BodyInv, StopInv;
  }

  lemma {:induction false} RunKeepsWaiting(s: State, run: seq<Action>, n: nat, results: seq<bool>, maxAttempts: int)
    requires Inv(s, maxAttempts) && IsRun(Next(maxAttempts), s, run) && KeptWaiting(s, n, results)
    requires BeginStop !in run && Untimed(s, run, maxAttempts)
    ensures KeptWaiting(Exec(Next(maxAttempts), s, run), n, results)
    decreases |run|
  {
    hide Inv, Apply, Enabled, KeptWaiting, TimesOut;
    if run != [] {
      ActionKeepsInv(s, run[0], maxAttempts);
      StepKeepsWaiting(s, run[0], n, results, maxAttempts);
      RunKeepsWaiting(Apply(s, run[0], maxAttempts), run[1..], n, results, maxAttempts);
    }
  }

  /**
   A body that failed to connect stays in its wait, and calls nothing, until the wait
   times out or a Stop begins: whatever notifications and wakeups there are.
   */
  lemma WaitLastsUntilTimeout(s: State, run: seq<Action>, maxAttempts: int)
    requires Reachable(s, maxAttempts) && s.bodies != [] && LastPc(s) == WantWait
    requires !s.stopRequested && !InStop(s.ctl)
    requires IsRun(Next(maxAttempts), s, run) && BeginStop !in run && Untimed(s, run, maxAttempts)
    ensures var t := Exec(Next(maxAttempts), s, run);
      && |t.bodies| == |s.bodies| && InWait(LastPc(t))
      && t.bodies[|t.bodies| - 1].results == s.bodies[|s.bodies| - 1].results
  {
    hide Inv, Reachable, IsRun, Exec, Untimed, Next;
    ReachableInv(s, maxAttempts);
    RunKeepsWaiting(s, run, |s.bodies|, s.bodies[|s.bodies| - 1].results, maxAttempts);
  }

  /**
   A wait that nobody interrupts ends when it times out, and the next call begins
   unless the attempts are used up.
   */
  lemma TimeoutRetries(s: State, maxAttempts: int)
    requires Reachable(s, maxAttempts) && s.bodies != [] && LastPc(s) == Waiting
    requires s.owner == Free && !s.stopRequested
    ensures var i := |s.bodies| - 1;
      var b := s.bodies[i];
      var run := [Step(i, true), Step(i, false), Step(i, false), Step(i, false)];
      && IsRun(Next(maxAttempts), s, run)
      && |Exec(Next(maxAttempts), s, run).bodies| == |s.bodies|
      && var b' := Exec(Next(maxAttempts), s, run).bodies[i];
         && b'.waits == b.waits + [Wait(|b.results| - 1, true)] && b'.results == b.results
         && b'.pc == if maxAttempts > 0 && |b.results| == maxAttempts then WantLeave else Calling
  {
    ReachableInv(s, maxAttempts);
    TimeoutSteps(s, maxAttempts);
    FourSteps(s, Step(|s.bodies| - 1, true), Step(|s.bodies| - 1, false), maxAttempts);
    hide Reachable, Inv, Apply, Enabled, IsRun, Exec, Next;
  }

  lemma TimeoutBody(b: Body, maxAttempts: int)
    requires BodyInv(b, maxAttempts) && b.pc == Waiting
    ensures var b1 := NextBody(b, false, true, maxAttempts);
      var b2 := NextBody(b1, false, false, maxAttempts);
      var b3 := NextBody(b2, false, false, maxAttempts);
      var b4 := NextBody(b3, false, false, maxAttempts);
      && b1.pc == HoldWait(true) && b2.pc == LoopHead && b3.pc == AttemptCheck
      && b4.waits == b.waits + [Wait(|b.results| - 1, true)] && b4.results == b.results
      && b4.pc == if maxAttempts > 0 && |b.results| == maxAttempts then WantLeave else Calling
  {}

  lemma TimeoutSteps(s: State, maxAttempts: int)
    requires Inv(s, maxAttempts) && s.bodies != [] && LastPc(s) == Waiting
    requires s.owner == Free && !s.stopRequested
    ensures var i := |s.bodies| - 1;
      var b := Step(i, false);
      && Enabled(s, Step(i, true))
      && var s1 := Apply(s, Step(i, true), maxAttempts);
         Enabled(s1, b) && var s2 := Apply(s1, b, maxAttempts);
         Enabled(s2, b) && var s3 := Apply(s2, b, maxAttempts);
         Enabled(s3, b) && var s4 := Apply(s3, b, maxAttempts);
         && |s4.bodies| == |s.bodies|
         && s4.bodies[i].waits == s.bodies[i].waits + [Wait(|s.bodies[i].results| - 1, true)]
         && s4.bodies[i].results == s.bodies[i].results
         && s4.bodies[i].pc == if maxAttempts > 0 && |s.bodies[i].results| == maxAttempts then WantLeave else Calling
  {
    var i := |s.bodies| - 1;
    hide Inv, Apply, NextBody, Enabled, BodyInv;
    BodyIsRight(s, maxAttempts, i);
    TimeoutBody(s.bodies[i], maxAttempts);
    CanTimeOut(s, i);
    var b := Step(i, false);
    Stepped(s, i, true, maxAttempts);
    var s1 := Apply(s, Step(i, true), maxAttempts);
    CanStep(s1, i);
    Stepped(s1, i, false, maxAttempts);
    var s2 := Apply(s1, b, maxAttempts);
    CanStep(s2, i);
    Stepped(s2, i, false, maxAttempts);
    var s3 := Apply(s2, b, maxAttempts);
    CanStep(s3, i);
    Stepped(s3, i, false, maxAttempts);
  }

  lemma CanTimeOut(s: State, i: nat)
    requires i < |s.bodies| && s.bodies[i].pc == Waiting && s.owner == Free
    ensures Enabled(s, Step(i, true))
  {}

  lemma CanStep(s: State, i: nat)
    requires i < |s.bodies| && s.bodies[i].pc in {HoldWait(true), LoopHead, AttemptCheck}
    ensures Enabled(s, Step(i, false))
  {}

  lemma Stepped(s: State, i: nat, outcome: bool, maxAttempts: int)
    requires Enabled(s, Step(i, outcome))
    ensures var s' := Apply(s, Step(i, outcome), maxAttempts);
      && s'.ctl == s.ctl && s'.stopRequested == s.stopRequested && s'.stopped == s.stopped
      && (s'.running ==> s.running) && |s'.bodies| == |s.bodies|
      && s'.bodies[i] == NextBody(s.bodies[i], s.stopRequested, outcome, maxAttempts)
  {
    hide NextBody;
  }

  lemma FourSteps(s: State, a: Action, b: Action, maxAttempts: int)
    requires Enabled(s, a)
    requires var s1 := Apply(s, a, maxAttempts);
      Enabled(s1, b) && var s2 := Apply(s1, b, maxAttempts);
      Enabled(s2, b) && Enabled(Apply(s2, b, maxAttempts), b)
    ensures IsRun(Next(maxAttempts), s, [a, b, b, b])
    ensures Exec(Next(maxAttempts), s, [a, b, b, b])
         == Apply(Apply(Apply(Apply(s, a, maxAttempts), b, maxAttempts), b, maxAttempts), b, maxAttempts)
  {
    hide Apply, Enabled;
    var next := Next(maxAttempts);
    var s1 := Apply(s, a, maxAttempts);
    var s2 := Apply(s1, b, maxAttempts);
    var s3 := Apply(s2, b, maxAttempts);
    var s4 := Apply(s3, b, maxAttempts);
    assert [b][1..] == [] && [b, b][1..] == [b] && [b, b, b][1..] == [b, b] && [a, b, b, b][1..] == [b, b, b];
    assert IsRun(next, s4, []) && Exec(next, s4, []) == s4;
    assert IsRun(next, s3, [b]) && Exec(next, s3, [b]) == s4;
    assert IsRun(next, s2, [b, b]) && Exec(next, s2, [b, b]) == s4;
    assert IsRun(next, s1, [b, b, b]) && Exec(next, s1, [b, b, b]) == s4;
  }

  /** A new body that nobody stops begins its first call, whatever the limit. */
  lemma NewBodyCalls(s: State, maxAttempts: int)
    requires s.bodies != [] && s.bodies[|s.bodies| - 1] == FRESH && !s.stopRequested
    ensures var a := Step(|s.bodies| - 1, false);
      && IsRun(Next(maxAttempts), s, [a, a])
      && var t := Exec(Next(maxAttempts), s, [a, a]);
         |t.bodies| == |s.bodies| && t.bodies[|t.bodies| - 1] == FRESH.(pc := Calling)
  {
    var i := |s.bodies| - 1;
    var a := Step(i, false);
    hide Apply;
    Stepped(s, i, false, maxAttempts);
    var s1 := Apply(s, a, maxAttempts);
    assert s1.bodies[i] == FRESH.(pc := AttemptCheck);
    Stepped(s1, i, false, maxAttempts);
    var s2 := Apply(s1, a, maxAttempts);
    hide Enabled, NextBody;
    assert IsRun(Next(maxAttempts), s2, []) && Exec(Next(maxAttempts), s2, []) == s2;
    RunCons(Next(maxAttempts), s1, a, []);
    assert [a] + [] == [a];
    RunCons(Next(maxAttempts), s, a, [a]);
    assert [a] + [a] == [a, a];
  }

  /**
   A body gives up only when it has connected, when it has used up its attempts, or
   when a Stop that is still in progress asked it to; a Stop of an earlier body does
   not count.
   */
  lemma LoopIsLeftOnlyFor(s: State, maxAttempts: int, i: nat, outcome: bool)
    requires Reachable(s, maxAttempts) && Enabled(s, Step(i, outcome))
    requires InLoop(s.bodies[i].pc)
    ensures var b' := Apply(s, Step(i, outcome), maxAttempts).bodies[i];
      b'.pc == WantLeave ==>
        || s.ctl == StopNotify || s.ctl == StopUnlock || s.ctl == StopJoin
        || (b'.results != [] && b'.results[|b'.results| - 1])
        || (maxAttempts > 0 && |b'.results| == maxAttempts)
  {
    hide Reachable, Inv, Apply, NextBody;
    ReachableInv(s, maxAttempts);
    BodyIsRight(s, maxAttempts, i);
    if s.stopRequested { RequestIsFresh(s, maxAttempts, i); }
    Stepped(s, i, outcome, maxAttempts);
    LeavesFor(s.bodies[i], s.stopRequested, outcome, maxAttempts);
  }

  lemma RequestIsFresh(s: State, maxAttempts: int, i: nat)
    requires Inv(s, maxAttempts) && i < |s.bodies| && InLoop(s.bodies[i].pc) && s.stopRequested
    ensures s.ctl == StopNotify || s.ctl == StopUnlock || s.ctl == StopJoin
  {
    hide BodyInv, LockInv, FlagInv, StopInv;
    assert i == |s.bodies| - 1;
  }

  lemma LeavesFor(b: Body, stopRequested: bool, outcome: bool, maxAttempts: int)
    requires BodyInv(b, maxAttempts) && InLoop(b.pc)
    ensures var b' := NextBody(b, stopRequested, outcome, maxAttempts);
      b'.pc == WantLeave ==>
        || stopRequested
        || (b'.results != [] && b'.results[|b'.results| - 1])
        || (maxAttempts > 0 && |b'.results| == maxAttempts)
  {
    hide WaitsInv;
  }

  /** How many connect_fn calls begin during a run. */
  ghost function CallsBegun(s: State, run: seq<Action>, maxAttempts: int): nat
    requires IsRun(Next(maxAttempts), s, run)
    decreases |run|
  {
    if run == [] then 0
    else
      var s' := Apply(s, run[0], maxAttempts);
      (if run[0].Step? && s'.bodies[run[0].body].pc == Calling then 1 else 0)
      + CallsBegun(s', run[1..], maxAttempts)
  }

  function BodySteps(run: seq<Action>): nat {
    if run == [] then 0 else (if run[0].Step? || run[0].Spurious? then 1 else 0) + BodySteps(run[1..])
  }

  predicate InStart(pc: CtlPc) {
    pc == StartWant || pc == StartCheck || pc == StartClear || pc == StartJoin
    || pc == StartSetRunning || pc == StartSpawn || pc == StartUnlock
  }

  /** Steps left to a body once stop_requested is set. */
  function Remaining(pc: BodyPc): nat {
    match pc
    case AttemptCheck => 9
    case Calling => 8
    case WantWait => 7
    case Waiting => 7
    case Blocking => 8
    case HoldWait(_) => 6
    case LoopHead => 5
    case WantLeave => 4
    case Leaving => 3
    case Unlocking => 2
    case Ending => 1
    case Ended => 0
  }

  lemma QuietBodyStep(b: Body, outcome: bool, maxAttempts: int)
    requires b.pc != Ended
    ensures var b' := NextBody(b, true, outcome, maxAttempts);
      && Remaining(b'.pc) < Remaining(b.pc)
      && (b'.pc == Calling ==> b.pc == AttemptCheck) && b'.pc != AttemptCheck
  {}

  lemma QuietStep(s: State, a: Action, maxAttempts: int)
    requires Inv(s, maxAttempts) && Enabled(s, a)
    requires s.stopRequested && !InStart(s.ctl) && a != BeginStart
    ensures var s' := Apply(s, a, maxAttempts);
      && s'.stopRequested && !InStart(s'.ctl)
      && (!a.Step? && !a.Spurious? ==> s'.bodies == s.bodies)
      && (a.Step? || a.Spurious? ==>
           && Remaining(LastPc(s')) < Remaining(LastPc(s))
           && (LastPc(s') == Calling ==> LastPc(s) == AttemptCheck) && LastPc(s') != AttemptCheck
           && a.body < |s'.bodies| && s'.bodies[a.body].pc == LastPc(s'))
  {
    if a.Step? || a.Spurious? {
      QuietMove(s, a.body, if a.Step? then a.outcome else false, maxAttempts);
      hide Inv, ApplyStep, ApplyCtl, Remaining, LastPc;
    } else if a == Ctl {
      QuietCtl(s);
      hide Inv, ApplyStep, ApplyCtl, Remaining, LastPc;
    } else {
      hide Inv, ApplyStep, ApplyCtl, Remaining, LastPc;
    }
  }

  lemma QuietCtl(s: State)
    requires s.stopRequested && !InStart(s.ctl)
    ensures var s' := ApplyCtl(s);
      s'.stopRequested && !InStart(s'.ctl) && s'.bodies == s.bodies
  {}

  lemma QuietMove(s: State, i: nat, outcome: bool, maxAttempts: int)
    requires OneBody(s) && i < |s.bodies| && s.bodies[i].pc != Ended && s.stopRequested
    ensures var s' := ApplyStep(s, i, outcome, maxAttempts);
      && s'.stopRequested && s'.ctl == s.ctl && i < |s'.bodies| && s'.bodies[i].pc == LastPc(s')
      && Remaining(LastPc(s')) < Remaining(LastPc(s))
      && (LastPc(s') == Calling ==> LastPc(s) == AttemptCheck) && LastPc(s') != AttemptCheck
  {
    assert i == |s.bodies| - 1;
    QuietBodyStep(s.bodies[i], outcome, maxAttempts);
    hide NextBody, Remaining;
  }

  lemma {:induction false} StopDrains(s: State, run: seq<Action>, maxAttempts: int)
    requires Inv(s, maxAttempts) && IsRun(Next(maxAttempts), s, run)
    requires s.stopRequested && !InStart(s.ctl) && BeginStart !in run
    ensures CallsBegun(s, run, maxAttempts) <= if LastPc(s) == AttemptCheck then 1 else 0
    ensures BodySteps(run) <= Remaining(LastPc(s)) <= 9
    decreases |run|
  {
    hide Inv, Apply, Enabled, LastPc;
    if run != [] {
      ActionKeepsInv(s, run[0], maxAttempts);
      QuietStep(s, run[0], maxAttempts);
      SamePc(s, Apply(s, run[0], maxAttempts));
      StopDrains(Apply(s, run[0], maxAttempts), run[1..], maxAttempts);
    }
  }

  /**
   From the moment stop_requested is set until the next Start, at most one more
   connect_fn call begins, and the body takes at most nine more steps.
   */
  lemma StopIsPrompt(s: State, run: seq<Action>, maxAttempts: int)
    requires Reachable(s, maxAttempts) && IsRun(Next(maxAttempts), s, run)
    requires s.stopRequested && !InStart(s.ctl) && BeginStart !in run
    ensures CallsBegun(s, run, maxAttempts) <= 1 && BodySteps(run) <= 9
  {
    ReachableInv(s, maxAttempts);
    StopDrains(s, run, maxAttempts);
  }

  /** No wait times out or wakes for no reason: a blocked body moves only if it was notified. */
  predicate Prompted(s: State, a: Action) {
    && !a.Spurious?
    && (a.Step? && a.body < |s.bodies| && s.bodies[a.body].pc == Waiting ==> s.notified && !a.outcome)
  }

  ghost predicate PromptedRun(s: State, run: seq<Action>, maxAttempts: int)
    requires IsRun(Next(maxAttempts), s, run)
    decreases |run|
  {
    run == [] || (Prompted(s, run[0]) && PromptedRun(Apply(s, run[0], maxAttempts), run[1..], maxAttempts))
  }

  lemma NothingDone(s: State, maxAttempts: int)
    ensures IsRun(Next(maxAttempts), s, []) && Exec(Next(maxAttempts), s, []) == s && PromptedRun(s, [], maxAttempts)
  {}

  lemma PromptedCons(s: State, a: Action, rest: seq<Action>, maxAttempts: int)
    requires Enabled(s, a) && Prompted(s, a)
    requires IsRun(Next(maxAttempts), Apply(s, a, maxAttempts), rest)
    requires PromptedRun(Apply(s, a, maxAttempts), rest, maxAttempts)
    ensures IsRun(Next(maxAttempts), s, [a] + rest) && PromptedRun(s, [a] + rest, maxAttempts)
    ensures Exec(Next(maxAttempts), s, [a] + rest) == Exec(Next(maxAttempts), Apply(s, a, maxAttempts), rest)
  {
    hide Apply, Enabled, Prompted;
    RunCons(Next(maxAttempts), s, a, rest);
    assert ([a] + rest)[0] == a && ([a] + rest)[1..] == rest;
  }

  /** How a Stop that has notified the body can go on. */
  function ToTheEnd(n: nat, body: nat): seq<Action> {
    seq(n, i => Step(body, false))
  }

  /**
   No wakeup is lost: while Stop waits for a body that has not ended, the body can
   move without its wait timing out, and after at most nine such steps Stop is no
   longer kept waiting.
   */
  lemma StopNeedsNoTimeout(s: State, maxAttempts: int) returns (n: nat)
    requires Reachable(s, maxAttempts) && s.ctl == StopJoin
    ensures n <= 9 && s.bodies != []
    ensures IsRun(Next(maxAttempts), s, ToTheEnd(n, |s.bodies| - 1))
    ensures PromptedRun(s, ToTheEnd(n, |s.bodies| - 1), maxAttempts)
    ensures Enabled(Exec(Next(maxAttempts), s, ToTheEnd(n, |s.bodies| - 1)), Ctl)
  {
    ReachableInv(s, maxAttempts);
    n := StopFinishes(s, maxAttempts);
  }

  lemma {:induction false} StopFinishes(s: State, maxAttempts: int) returns (n: nat)
    requires Inv(s, maxAttempts) && s.ctl == StopJoin
    ensures n <= Remaining(LastPc(s)) <= 9
    ensures s.thread == Some(|s.bodies| - 1)
    ensures IsRun(Next(maxAttempts), s, ToTheEnd(n, |s.bodies| - 1))
    ensures PromptedRun(s, ToTheEnd(n, |s.bodies| - 1), maxAttempts)
    ensures Enabled(Exec(Next(maxAttempts), s, ToTheEnd(n, |s.bodies| - 1)), Ctl)
    decreases Remaining(LastPc(s))
  {
    hide Inv, Enabled, Apply, Remaining, LastPc, Prompted, PromptedRun, IsRun, Exec;
    StopIsWaiting(s, maxAttempts);
    var body := |s.bodies| - 1;
    var a := Step(body, false);
    if LastPc(s) == Ended {
      n := 0;
      assert ToTheEnd(0, body) == [];
      NothingDone(s, maxAttempts);
    } else {
      ActionKeepsInv(s, a, maxAttempts);
      QuietStep(s, a, maxAttempts);
      var m := StopFinishes(Apply(s, a, maxAttempts), maxAttempts);
      n := m + 1;
      PromptedCons(s, a, ToTheEnd(m, body), maxAttempts);
      assert ToTheEnd(n, body) == [a] + ToTheEnd(m, body);
    }
  }

  lemma StopIsWaiting(s: State, maxAttempts: int)
    requires Inv(s, maxAttempts) && s.ctl == StopJoin
    ensures s.bodies != [] && s.thread == Some(|s.bodies| - 1)
    ensures s.stopRequested && !InStart(s.ctl) && Remaining(LastPc(s)) <= 9
    ensures LastPc(s) == Ended ==> Enabled(s, Ctl)
    ensures LastPc(s) != Ended ==>
      && Enabled(s, Step(|s.bodies| - 1, false)) && Prompted(s, Step(|s.bodies| - 1, false))
      && var s' := Apply(s, Step(|s.bodies| - 1, false), maxAttempts);
         s'.ctl == StopJoin && |s'.bodies| == |s.bodies|
  {
    hide Inv, Enabled, Apply, LastPc, Remaining, JoinReturns;
    PartsOf(s, maxAttempts);
    hide OneBody, LockInv, FlagInv, AskInv;
    StopFacts(s, LastPc(s));
    RemainingBound(LastPc(s));
    if LastPc(s) != Ended {
      SomeoneMoves(s, LastPc(s));
      WaitedFor(s, LastPc(s));
      LastIs(s);
      Stepped(s, |s.bodies| - 1, false, maxAttempts);
    }
  }

  lemma PartsOf(s: State, maxAttempts: int)
    requires Inv(s, maxAttempts)
    ensures OneBody(s) && LockInv(s, LastPc(s)) && FlagInv(s, LastPc(s)) && AskInv(s, LastPc(s))
  {
    hide OneBody, LockInv, FlagInv, StopInv, AskInv, BodyInv, LastPc;
  }

  lemma LastIs(s: State)
    requires s.bodies != []
    ensures LastPc(s) == s.bodies[|s.bodies| - 1].pc
  {}

  lemma StopFacts(s: State, pc: BodyPc)
    requires pc == LastPc(s) && OneBody(s) && FlagInv(s, pc) && s.ctl == StopJoin
    ensures s.bodies != [] && s.thread == Some(|s.bodies| - 1) && s.stopRequested
    ensures Enabled(s, Ctl) <==> pc == Ended
  {}

  lemma RemainingBound(pc: BodyPc)
    ensures Remaining(pc) <= 9
  {}

  /** Steps the controller still needs. */
  function CtlRank(pc: CtlPc): nat {
    match pc
    case Idle => 0
    case StartWant => 7
    case StartCheck => 6
    case StartClear => 5
    case StartJoin => 4
    case StartSetRunning => 3
    case StartSpawn => 2
    case StartUnlock => 1
    case StopWant => 7
    case StopCheck => 6
    case StopSet => 5
    case StopNotify => 4
    case StopUnlock => 3
    case StopJoin => 2
    case StopReturn => 1
  }

  /** Steps of the body the controller is waiting for. */
  function Delay(ctl: CtlPc, pc: BodyPc): nat {
    if ctl == StartWant || ctl == StopWant then
      if pc.HoldWait? then 2 else if pc == Blocking then 1 else if pc == Leaving then 2 else if pc == Unlocking then 1 else 0
    else if ctl == StartJoin then if pc == Ending then 1 else 0
    else if ctl == StopJoin then Remaining(pc)
    else 0
  }

  lemma CtlComesToItsEnd(s: State)
    requires s.ctl != Idle
    ensures CtlRank(ApplyCtl(s).ctl) < CtlRank(s.ctl)
  {}

  lemma CtlIsPrompted(s: State)
    ensures Prompted(s, Ctl)
  {}

  lemma BodyDelaysLess(s: State, maxAttempts: int)
    requires Inv(s, maxAttempts) && s.ctl != Idle && !Enabled(s, Ctl)
    ensures var a := NextToMove(s);
      Enabled(s, a) && Prompted(s, a) && var t := Apply(s, a, maxAttempts);
      t.ctl == s.ctl && Delay(t.ctl, LastPc(t)) < Delay(s.ctl, LastPc(s))
  {
    hide BodyInv, StopInv, OneBody, LockInv, FlagInv, AskInv, Enabled;
    SomeoneMoves(s, LastPc(s));
    WaitedFor(s, LastPc(s));
    var i := |s.bodies| - 1;
    hide Apply, Delay;
    Stepped(s, i, false, maxAttempts);
    BodyStepDelays(s.ctl, s.bodies[i], s.stopRequested, maxAttempts);
  }

  /** Where the body stands that keeps the controller waiting. */
  lemma WaitedFor(s: State, pc: BodyPc)
    requires pc == LastPc(s) && OneBody(s) && LockInv(s, pc) && FlagInv(s, pc) && AskInv(s, pc)
    requires s.ctl != Idle && !Enabled(s, Ctl)
    ensures s.bodies != [] && KeepsWaiting(s.ctl, pc, s.stopRequested)
    ensures pc == Waiting ==> s.notified
  {}

  predicate KeepsWaiting(ctl: CtlPc, pc: BodyPc, stopRequested: bool) {
    || ((ctl == StartWant || ctl == StopWant) && BodyHolds(pc))
    || (ctl == StartJoin && pc == Ending)
    || (ctl == StopJoin && pc != Ended && stopRequested)
  }

  lemma BodyStepDelays(ctl: CtlPc, b: Body, stopRequested: bool, maxAttempts: int)
    requires KeepsWaiting(ctl, b.pc, stopRequested)
    ensures Delay(ctl, NextBody(b, stopRequested, false, maxAttempts).pc) < Delay(ctl, b.pc)
  {}

  /**
   A Start or Stop that is under way can return, with no wait timing out or waking for
   no reason.
   */
  lemma {:induction false} ControllerReturns(s: State, maxAttempts: int) returns (run: seq<Action>)
    requires Inv(s, maxAttempts)
    ensures IsRun(Next(maxAttempts), s, run) && Exec(Next(maxAttempts), s, run).ctl == Idle
    ensures PromptedRun(s, run, maxAttempts)
    decreases CtlRank(s.ctl), Delay(s.ctl, LastPc(s))
  {
    hide Inv, Enabled, ApplyCtl, CtlRank, Delay, LastPc, Prompted;
    if s.ctl == Idle {
      run := [];
    } else {
      var a := NextToMove(s);
      if a == Ctl { CtlComesToItsEnd(s); CtlIsPrompted(s); } else { BodyDelaysLess(s, maxAttempts); }
      ActionKeepsInv(s, a, maxAttempts);
      var t := Apply(s, a, maxAttempts);
      hide Apply;
      var rest := ControllerReturns(t, maxAttempts);
      PromptedCons(s, a, rest, maxAttempts);
      run := [a] + rest;
    }
  }

  /** From every reachable state the Start or Stop under way can return without a wait timing out. */
  lemma StartAndStopCanReturn(s: State, maxAttempts: int) returns (run: seq<Action>)
    requires Reachable(s, maxAttempts)
    ensures IsRun(Next(maxAttempts), s, run) && Exec(Next(maxAttempts), s, run).ctl == Idle
    ensures PromptedRun(s, run, maxAttempts)
  {
    hide Reachable, Inv;
    ReachableInv(s, maxAttempts);
    run := ControllerReturns(s, maxAttempts);
  }

  /** In every reachable state an idle controller can make a Start or a Stop, and have it return. */
  lemma AnyCallCanBeMade(s: State, a: Action, maxAttempts: int) returns (run: seq<Action>)
    requires Reachable(s, maxAttempts) && s.ctl == Idle && (a == BeginStart || a == BeginStop)
    ensures IsRun(Next(maxAttempts), s, [a] + run) && Exec(Next(maxAttempts), s, [a] + run).ctl == Idle
  {
    assert Enabled(s, a);
    hide Reachable, Enabled, Apply, PromptedRun;
    var t := Reach(s, a, maxAttempts);
    run := StartAndStopCanReturn(t, maxAttempts);
    RunCons(Next(maxAttempts), s, a, run);
  }

  lemma SameBodies(s: State, t: State)
    requires OneBody(s) && s.bodies == t.bodies && s.thread == t.thread
    ensures OneBody(t) && LastPc(t) == LastPc(s)
  {
    SamePc(s, t);
  }

  lemma SamePc(s: State, t: State)
    ensures s.bodies == t.bodies ==> LastPc(s) == LastPc(t)
  {}

  lemma StoppedStep(s: State, a: Action, maxAttempts: int)
    requires Inv(s, maxAttempts) && Enabled(s, a) && s.stopped && a != BeginStart
    ensures var s' := Apply(s, a, maxAttempts);
      s'.stopped && (a.Step? ==> s'.bodies[a.body].pc != Calling)
  {
    hide BodyInv;
  }

  /** After Stop has returned, no connect_fn call begins before the next Start. */
  lemma {:induction false} NoCallsAfterStop(s: State, run: seq<Action>, maxAttempts: int)
    requires Reachable(s, maxAttempts) && s.stopped
    requires IsRun(Next(maxAttempts), s, run) && BeginStart !in run
    ensures CallsBegun(s, run, maxAttempts) == 0
  {
    ReachableInv(s, maxAttempts);
    NoCallsFrom(s, run, maxAttempts);
  }

  lemma {:induction false} NoCallsFrom(s: State, run: seq<Action>, maxAttempts: int)
    requires Inv(s, maxAttempts) && s.stopped
    requires IsRun(Next(maxAttempts), s, run) && BeginStart !in run
    ensures CallsBegun(s, run, maxAttempts) == 0
    decreases |run|
  {
    hide Inv, Apply, Enabled;
    if run != [] {
      ActionKeepsInv(s, run[0], maxAttempts);
      StoppedStep(s, run[0], maxAttempts);
      NoCallsFrom(Apply(s, run[0], maxAttempts), run[1..], maxAttempts);
    }
  }

  predicate InStop(pc: CtlPc) { pc != Idle && !InStart(pc) }

  lemma {:induction false} StopEnds(s: State, run: seq<Action>, maxAttempts: int)
    requires IsRun(Next(maxAttempts), s, run) && BeginStart !in run
    requires InStop(s.ctl) || (s.stopped && s.ctl == Idle)
    ensures var t := Exec(Next(maxAttempts), s, run);
      InStop(t.ctl) || (t.stopped && t.ctl == Idle)
    decreases |run|
  {
    hide Apply, Enabled, InStop;
    if run != [] {
      StopGoesOn(s, run[0], maxAttempts);
      StopEnds(Apply(s, run[0], maxAttempts), run[1..], maxAttempts);
    }
  }

  lemma StopGoesOn(s: State, a: Action, maxAttempts: int)
    requires Enabled(s, a) && a != BeginStart
    requires InStop(s.ctl) || (s.stopped && s.ctl == Idle)
    ensures var s' := Apply(s, a, maxAttempts);
      InStop(s'.ctl) || (s'.stopped && s'.ctl == Idle)
  {
    if a == Ctl { CtlGoesOn(s, |s.bodies|); }
    hide ApplyCtl, NextBody;
  }

  lemma CtlGoesOn(s: State, n: nat)
    requires s.ctl != Idle
    ensures InStop(s.ctl) ==> InStop(ApplyCtl(s).ctl) || (ApplyCtl(s).stopped && ApplyCtl(s).ctl == Idle)
    ensures WillSpawn(s, n) ==> WillSpawn(ApplyCtl(s), n)
  {}

  /** A Stop that has returned leaves the loop not running, and so quiet until the next Start. */
  lemma StopTakesEffect(s: State, run: seq<Action>, maxAttempts: int)
    requires Reachable(s, maxAttempts) && Enabled(s, BeginStop)
    requires IsRun(Next(maxAttempts), Apply(s, BeginStop, maxAttempts), run) && BeginStart !in run
    ensures var t := Exec(Next(maxAttempts), Apply(s, BeginStop, maxAttempts), run);
      t.ctl == Idle ==> t.stopped && !t.running
  {
    StopEnds(Apply(s, BeginStop, maxAttempts), run, maxAttempts);
    ReachesNext(Next(maxAttempts), INITIAL, s, BeginStop);
    ReachesAfter(Next(maxAttempts), INITIAL, Apply(s, BeginStop, maxAttempts), run);
    ReachableInv(Exec(Next(maxAttempts), Apply(s, BeginStop, maxAttempts), run), maxAttempts);
  }

  /** On its way to spawning a body after the first n. */
  predicate WillSpawn(s: State, n: nat) {
    || |s.bodies| > n
    || (|s.bodies| == n && InStart(s.ctl) && s.ctl != StartUnlock && (s.running ==> s.ctl == StartSpawn))
  }

  lemma {:induction false} StartEnds(s: State, run: seq<Action>, n: nat, maxAttempts: int)
    requires IsRun(Next(maxAttempts), s, run) && WillSpawn(s, n)
    ensures WillSpawn(Exec(Next(maxAttempts), s, run), n)
    decreases |run|
  {
    hide Apply, Enabled, WillSpawn;
    if run != [] {
      StartGoesOn(s, run[0], n, maxAttempts);
      StartEnds(Apply(s, run[0], maxAttempts), run[1..], n, maxAttempts);
    }
  }

  lemma StartGoesOn(s: State, a: Action, n: nat, maxAttempts: int)
    requires Enabled(s, a) && WillSpawn(s, n)
    ensures WillSpawn(Apply(s, a, maxAttempts), n)
  {
    if a == Ctl { CtlGoesOn(s, n); }
    hide ApplyCtl, NextBody;
  }

  /** A Start begun while the loop is not running has spawned a new body when it returns. */
  lemma StartTakesEffect(s: State, run: seq<Action>, maxAttempts: int)
    requires Enabled(s, BeginStart) && !s.running
    requires IsRun(Next(maxAttempts), Apply(s, BeginStart, maxAttempts), run)
    ensures var t := Exec(Next(maxAttempts), Apply(s, BeginStart, maxAttempts), run);
      t.ctl == Idle ==> |t.bodies| > |s.bodies|
  {
    StartEnds(Apply(s, BeginStart, maxAttempts), run, |s.bodies|, maxAttempts);
  }

  /**
   When Stop has returned the handle is still joinable exactly if Stop found
   running clear and a handle present, that is, if Run had finished by itself
   and was never joined.  If Stop found running set, the body has ended.
   */
  lemma HandleAfterStop(s: State, maxAttempts: int)
    requires Reachable(s, maxAttempts) && s.stopped && s.ctl == Idle
    ensures s.thread.Some? <==> !s.sawRunning && s.sawThread
    ensures s.sawRunning ==> LastPc(s) == Ended
  {
    ReachableInv(s, maxAttempts);
  }

  lemma Reach(s: State, a: Action, maxAttempts: int) returns (t: State)
    requires Reachable(s, maxAttempts) && Enabled(s, a)
    ensures t == Apply(s, a, maxAttempts) && Reachable(t, maxAttempts)
  {
    hide Apply, Enabled;
    ReachesNext(Next(maxAttempts), INITIAL, s, a);
    t := Apply(s, a, maxAttempts);
  }

  lemma StartReachesJoin() returns (s: State)
    ensures Reachable(s, 0) && s == INITIAL.(ctl := StartJoin, owner := Controller)
  {
    s := INITIAL;
    ReachesInitial(Next(0), INITIAL);
    assert Reachable(s, 0);
    hide Reachable, LastPc;
    s := Reach(s, BeginStart, 0);
    s := Reach(s, Ctl, 0);
    assert s == INITIAL.(ctl := StartCheck, owner := Controller);
    s := Reach(s, Ctl, 0);
    s := Reach(s, Ctl, 0);
  }

  lemma StartSpawns() returns (s: State)
    ensures Reachable(s, 0)
    ensures s == State(true, false, Free, false, Some(0), [FRESH], Idle, false, false, false)
  {
    s := StartReachesJoin();
    hide Reachable, LastPc;
    s := Reach(s, Ctl, 0);
    s := Reach(s, Ctl, 0);
    assert s == INITIAL.(ctl := StartSpawn, owner := Controller, running := true);
    s := Reach(s, Ctl, 0);
    assert s == INITIAL.(ctl := StartUnlock, owner := Controller, running := true, thread := Some(0), bodies := [FRESH]);
    s := Reach(s, Ctl, 0);
  }

  lemma BodyConnects() returns (s: State)
    ensures Reachable(s, 0) && |s.bodies| == 1 && s.bodies[0].pc == Leaving
    ensures s.ctl == Idle && s.owner == BodyOwns(0) && s.thread == Some(0)
  {
    s := StartSpawns();
    hide Reachable, LastPc;
    s := Reach(s, Step(0, true), 0);
    assert |s.bodies| == 1 && s.bodies[0].pc == AttemptCheck;
    s := Reach(s, Step(0, true), 0);
    assert |s.bodies| == 1 && s.bodies[0].pc == Calling;
    s := Reach(s, Step(0, true), 0);
    assert |s.bodies| == 1 && s.bodies[0].pc == WantLeave;
    s := Reach(s, Step(0, true), 0);
  }

  lemma BodyFinishes() returns (s: State)
    ensures Reachable(s, 0) && |s.bodies| == 1 && s.bodies[0].pc == Ended
    ensures s.ctl == Idle && s.owner == Free && s.thread == Some(0) && !s.running
  {
    s := BodyConnects();
    hide Reachable, LastPc;
    s := Reach(s, Step(0, true), 0);
    assert |s.bodies| == 1 && s.bodies[0].pc == Unlocking;
    s := Reach(s, Step(0, true), 0);
    assert |s.bodies| == 1 && s.bodies[0].pc == Ending;
    s := Reach(s, Step(0, true), 0);
  }

  /** One step of a Stop that finds the loop not running. */
  lemma IdleStop(s: State) returns (t: State)
    requires Reachable(s, 0) && Enabled(s, Ctl) && !s.running && s.ctl in {StopWant, StopCheck, StopReturn}
    ensures Reachable(t, 0) && t.ctl == NextCtl(s.ctl, false)
    ensures t.thread == s.thread && t.bodies == s.bodies && !t.running
    ensures s.ctl == StopReturn ==> t.stopped
  {
    hide Reachable, Enabled, LastPc;
    t := Reach(s, Ctl, 0);
  }

  lemma CtlIsFree(s: State)
    requires s.ctl in {StopCheck, StopReturn} || (s.ctl == StopWant && s.owner == Free)
    ensures Enabled(s, Ctl)
  {}

  /**
   A Run that connects ends by itself; Stop then returns without joining it, and
   the handle is still joinable when the loop object may be destroyed.
   */
  lemma StopLeavesFinishedRunUnjoined() returns (s: State)
    ensures Reachable(s, 0) && s.stopped && s.ctl == Idle
    ensures LastPc(s) == Ended && s.thread.Some?
  {
    s := BodyFinishes();
    hide Reachable;
    s := Reach(s, BeginStop, 0);
    hide Enabled, Apply;
    CtlIsFree(s);
    s := IdleStop(s);
    CtlIsFree(s);
    s := IdleStop(s);
    CtlIsFree(s);
    s := IdleStop(s);
  }
}
