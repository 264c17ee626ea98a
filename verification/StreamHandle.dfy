/**
 A stream handle: any number of threads in Send, Close and Wait, against the
 background reader, sharing the flag done and the write lock.

 Each action is one atomic access; a run is any interleaving.  The event,
 event-store and queue-upstream handles all follow this protocol.
 */
module StreamHandle {

  import opened Wrappers
  import opened Runs

  type Tid = nat
  type Event = int

  datatype SendResult = Sent | WriteFailed | Refused

  /** Where a client thread stands.  late records that done was already set when its Send began. */
  datatype Pc =
    | Idle
    | SendWant(event: Event, late: bool)    // about to take the write lock
    | SendCheck(event: Event, late: bool)   // holds it, about to load done
    | SendWrite(event: Event, late: bool)   // holds it, found done clear, about to Write
    | SendUnlock(event: Event, late: bool, result: SendResult)
    | CloseWant
    | CloseExchange                         // holds the lock, about to exchange done
    | CloseWritesDone                       // holds it, flipped done, about to call WritesDone
    | CloseUnlock(flipped: bool)
    | CloseJoin
    | WaitJoin

  datatype ReaderPc =
    | Reading
    | StoringDone                           // Read returned false, about to set done
    | Finishing
    | Notifying                             // about to invoke on_error
    | Exited

  /** What reaches the stream. */
  datatype Wire = Write(tid: Tid, event: Event, ok: bool) | WritesDone(tid: Tid)

  /**
   Calls in the order they came to their end: a Send or Close when it released the
   lock for good, a Wait when it returned.
   */
  datatype Call =
    | SendCall(tid: Tid, event: Event, late: bool, result: SendResult)
    | CloseCall(tid: Tid, flipped: bool)
    | WaitCall(tid: Tid)

  datatype State = State(
    done: bool,
    lock: Option<Tid>,
    threads: map<Tid, Pc>,
    reader: ReaderPc,
    // History, read by no step:
    flippedBy: Option<Tid>,   // the thread whose Close found done clear
    wire: seq<Wire>,
    calls: seq<Call>,
    readFailed: bool,         // a Read has returned false
    finished: Option<bool>,   // whether the status Finish returned was OK
    notices: nat              // how often the reader has come to on_error
  )

  const INITIAL := State(false, None, map[], Reading, None, [], [], false, None, 0)

  datatype Action =
    | BeginSend(tid: Tid, event: Event)
    | BeginClose(tid: Tid)
    | BeginWait(tid: Tid)
    | Step(tid: Tid, ok: bool)        // ok is what Write returns
    | ReaderStep(ok: bool)            // ok is what Read returns, or whether Finish is OK

  function PcOf(s: State, t: Tid): Pc { if t in s.threads then s.threads[t] else Idle }

  predicate Wants(pc: Pc) { pc.SendWant? || pc.CloseWant? }

  predicate Holds(pc: Pc) {
    pc.SendCheck? || pc.SendWrite? || pc.SendUnlock? || pc.CloseExchange? || pc.CloseWritesDone? || pc.CloseUnlock?
  }

  predicate Joins(pc: Pc) { pc.CloseJoin? || pc.WaitJoin? }

  predicate Enabled(s: State, a: Action) {
    match a
    case BeginSend(t, _) => PcOf(s, t) == Idle
    case BeginClose(t) => PcOf(s, t) == Idle
    case BeginWait(t) => PcOf(s, t) == Idle
    case Step(t, _) =>
      var pc := PcOf(s, t);
      pc != Idle && (Wants(pc) ==> s.lock == None) && (Joins(pc) ==> s.reader == Exited)
    case ReaderStep(_) => s.reader != Exited
  }

  /** Where a thread goes, given what it reads of done. */
  function NextPc(pc: Pc, ok: bool, done: bool): Pc {
    match pc
    case Idle => Idle
    case SendWant(e, late) => SendCheck(e, late)
    case SendCheck(e, late) => if done then SendUnlock(e, late, Refused) else SendWrite(e, late)
    case SendWrite(e, late) => SendUnlock(e, late, if ok then Sent else WriteFailed)
    case SendUnlock(_, _, _) => Idle
    case CloseWant => CloseExchange
    case CloseExchange => if done then CloseUnlock(false) else CloseWritesDone
    case CloseWritesDone => CloseUnlock(true)
    case CloseUnlock(flipped) => if flipped then CloseJoin else Idle
    case CloseJoin => Idle
    case WaitJoin => Idle
  }

  /** What a step puts on the wire. */
  function NextWire(t: Tid, pc: Pc, ok: bool): seq<Wire> {
    match pc
    case SendWrite(e, _) => [Write(t, e, ok)]
    case CloseWritesDone => [WritesDone(t)]
    case _ => []
  }

  /** What a step adds to the calls that came to their end. */
  function NextCall(t: Tid, pc: Pc): seq<Call> {
    match pc
    case SendUnlock(e, late, result) => [SendCall(t, e, late, result)]
    case CloseUnlock(flipped) => [CloseCall(t, flipped)]
    case WaitJoin => [WaitCall(t)]
    case _ => []
  }

  predicate Unlocks(pc: Pc) { pc.SendUnlock? || pc.CloseUnlock? }

  function ApplyStep(s: State, t: Tid, ok: bool): State {
    var pc := PcOf(s, t);
    s.(threads := s.threads[t := NextPc(pc, ok, s.done)],
       lock := if Wants(pc) then Some(t) else if Unlocks(pc) then None else s.lock,
       done := s.done || pc.CloseExchange?,
       flippedBy := if pc.CloseExchange? && !s.done then Some(t) else s.flippedBy,
       wire := s.wire + NextWire(t, pc, ok),
       calls := s.calls + NextCall(t, pc))
  }

  function NextReader(pc: ReaderPc, ok: bool): ReaderPc {
    match pc
    case Reading => if ok then Reading else StoringDone
    case StoringDone => Finishing
    case Finishing => if ok then Exited else Notifying
    case Notifying => Exited
    case Exited => Exited
  }

  /** Where a call starts. */
  function BeginPc(a: Action, done: bool): Pc {
    match a
    case BeginSend(_, e) => SendWant(e, done)
    case BeginClose(_) => CloseWant
    case BeginWait(_) => WaitJoin
    case _ => Idle
  }

  function Apply(s: State, a: Action): State {
    match a
    case Step(t, ok) => ApplyStep(s, t, ok)
    case ReaderStep(ok) =>
      s.(reader := NextReader(s.reader, ok),
         done := s.done || s.reader == StoringDone,
         readFailed := s.readFailed || (s.reader == Reading && !ok),
         finished := if s.reader == Finishing then Some(ok) else s.finished,
         notices := s.notices + if s.reader == Notifying then 1 else 0)
    case _ => s.(threads := s.threads[a.tid := BeginPc(a, s.done)])
  }

  function Next(s: State, a: Action): Option<State> {
    if Enabled(s, a) then Some(Apply(s, a)) else None
  }

  // --------------------------------------------------------------- invariant

  ghost predicate LockInv(s: State) {
    forall t: Tid :: Holds(PcOf(s, t)) <==> s.lock == Some(t)
  }

  /** What the position of one thread says about the shared state. */
  predicate ThreadInv(s: State, t: Tid) {
    match PcOf(s, t)
    case SendWant(_, late) => late ==> s.done
    case SendCheck(_, late) => late ==> s.done
    case SendWrite(_, late) => !late && s.flippedBy == None
    case SendUnlock(_, late, result) => (late ==> result == Refused) && (result == Refused ==> s.done)
    case CloseWritesDone => s.flippedBy == Some(t)
    case CloseUnlock(flipped) => s.done && (flipped ==> s.flippedBy == Some(t))
    case CloseJoin => s.flippedBy == Some(t)
    case _ => true
  }

  predicate DoneInv(s: State) {
    && (s.flippedBy.Some? ==> s.done)
    && (s.done && s.flippedBy == None ==> s.reader != Reading && s.reader != StoringDone)
    && (s.reader == Finishing || s.reader == Notifying || s.reader == Exited ==> s.done)
  }

  /** The reader stops only at the end of the stream, and tells on_error of a status that is not OK. */
  predicate ReaderInv(s: State) {
    && (s.reader != Reading ==> s.readFailed)
    && (s.reader == Reading || s.reader == StoringDone || s.reader == Finishing ==> s.finished == None && s.notices == 0)
    && (s.reader == Notifying ==> s.finished == Some(false) && s.notices == 0)
    && (s.reader == Exited ==> s.finished.Some? && s.notices == if s.finished.value then 0 else 1)
  }

  /** WritesDone is on the wire exactly when the Close that flipped done has got to it, and it is last. */
  predicate WireInv(s: State) {
    && (forall i :: 0 <= i < |s.wire| - 1 ==> s.wire[i].Write?)
    && (s.wire != [] && s.wire[|s.wire| - 1].WritesDone? <==>
          s.flippedBy.Some? && !PcOf(s, s.flippedBy.value).CloseWritesDone?)
    && (s.wire != [] && s.wire[|s.wire| - 1].WritesDone? ==> s.flippedBy == Some(s.wire[|s.wire| - 1].tid))
  }

  /** The writes that finished calls account for, in order. */
  function WritesOf(calls: seq<Call>): seq<Wire> {
    if calls == [] then [] else WritesOf(calls[..|calls| - 1]) + WriteOf(calls[|calls| - 1])
  }

  function WriteOf(c: Call): seq<Wire> {
    if c.SendCall? && c.result != Refused then [Write(c.tid, c.event, c.result == Sent)] else []
  }

  /** The write of a call that has not yet released the lock. */
  function PendingOf(t: Tid, pc: Pc): seq<Wire> {
    if pc.SendUnlock? then WriteOf(SendCall(t, pc.event, pc.late, pc.result)) else []
  }

  function PendingWrite(s: State): seq<Wire> {
    if s.lock == None then [] else PendingOf(s.lock.value, PcOf(s, s.lock.value))
  }

  function WritesOnWire(wire: seq<Wire>): seq<Wire> {
    if wire == [] then []
    else
      var n := |wire| - 1;
      WritesOnWire(wire[..n]) + if wire[n].Write? then [wire[n]] else []
  }

  /** What a finished call says about the state. */
  predicate Verdict(s: State, c: Call) {
    match c
    case SendCall(_, _, late, result) => (late ==> result == Refused) && (result == Refused ==> s.done)
    case CloseCall(t, flipped) =>
      && s.done
      && (flipped ==>
            && s.flippedBy == Some(t) && !PcOf(s, t).CloseWritesDone?
            && (PcOf(s, t).CloseJoin? || s.reader == Exited))
    case WaitCall(_) => s.reader == Exited
  }

  predicate CallInv(s: State) {
    && WritesOnWire(s.wire) == WritesOf(s.calls) + PendingWrite(s)
    && VerdictsInv(s)
  }

  predicate VerdictsInv(s: State) { forall i :: 0 <= i < |s.calls| ==> Verdict(s, s.calls[i]) }

  ghost predicate Inv(s: State) {
    LockInv(s) && (forall t: Tid :: ThreadInv(s, t)) && DoneInv(s) && ReaderInv(s) && WireInv(s) && CallInv(s)
  }

  /** What an action changes, thread by thread and field by field. */
  lemma Effect(s: State, a: Action)
    requires Enabled(s, a)
    ensures var s' := Apply(s, a);
      && (a.ReaderStep? ==>
           && (forall t: Tid :: PcOf(s', t) == PcOf(s, t))
           && s'.lock == s.lock && s'.flippedBy == s.flippedBy && s'.wire == s.wire && s'.calls == s.calls
           && s'.reader == NextReader(s.reader, a.ok) && s.reader != Exited
           && s'.done == (s.done || s.reader == StoringDone))
      && (!a.ReaderStep? ==>
           && (forall t: Tid :: t != a.tid ==> PcOf(s', t) == PcOf(s, t))
           && s'.reader == s.reader)
      && (!a.ReaderStep? && !a.Step? ==>
           && PcOf(s, a.tid) == Idle && PcOf(s', a.tid) == BeginPc(a, s.done)
           && s'.done == s.done && s'.lock == s.lock && s'.flippedBy == s.flippedBy && s'.wire == s.wire && s'.calls == s.calls)
      && (a.Step? ==> var pc := PcOf(s, a.tid);
           && PcOf(s', a.tid) == NextPc(pc, a.ok, s.done)
           && pc != Idle && (Wants(pc) ==> s.lock == None) && (Joins(pc) ==> s.reader == Exited)
           && s'.done == (s.done || pc.CloseExchange?)
           && s'.lock == (if Wants(pc) then Some(a.tid) else if Unlocks(pc) then None else s.lock)
           && s'.flippedBy == (if pc.CloseExchange? && !s.done then Some(a.tid) else s.flippedBy)
           && s'.wire == s.wire + NextWire(a.tid, pc, a.ok)
           && s'.calls == s.calls + NextCall(a.tid, pc))
  {
    hide NextPc, NextWire, NextCall, NextReader, BeginPc;
  }

  lemma KeepsLock(s: State, a: Action)
    requires Enabled(s, a) && LockInv(s)
    ensures LockInv(Apply(s, a))
  {
    Effect(s, a);
    hide Apply, PcOf, Enabled, NextWire, NextCall, NextReader;
  }

  lemma KeepsThreads(s: State, a: Action)
    requires Enabled(s, a) && LockInv(s) && (forall t: Tid :: ThreadInv(s, t)) && DoneInv(s)
    ensures forall t: Tid :: ThreadInv(Apply(s, a), t)
  {
    var s' := Apply(s, a);
    Effect(s, a);
    hide Apply, PcOf, Enabled, NextWire, NextCall, NextReader;
    forall t: Tid
      ensures ThreadInv(s', t)
    {
      assert ThreadInv(s, t);
      if !a.ReaderStep? {
        assert ThreadInv(s, a.tid);
        assert Holds(PcOf(s, t)) && Holds(PcOf(s, a.tid)) ==> t == a.tid;
      }
    }
  }

  lemma KeepsDone(s: State, a: Action)
    requires Enabled(s, a) && (forall t: Tid :: ThreadInv(s, t)) && DoneInv(s)
    ensures DoneInv(Apply(s, a))
  {
    Effect(s, a);
    if a.Step? { assert ThreadInv(s, a.tid); }
    hide Apply, PcOf, Enabled, NextWire, NextCall;
  }

  lemma KeepsReader(s: State, a: Action)
    requires Enabled(s, a) && ReaderInv(s)
    ensures ReaderInv(Apply(s, a))
  {
    hide NextPc, NextWire, NextCall, BeginPc;
  }

  lemma KeepsWire(s: State, a: Action)
    requires Enabled(s, a) && LockInv(s) && (forall t: Tid :: ThreadInv(s, t)) && DoneInv(s) && WireInv(s)
    ensures WireInv(Apply(s, a))
  {
    Effect(s, a);
    if !a.ReaderStep? { assert ThreadInv(s, a.tid); }
    hide Apply, PcOf, Enabled, NextCall, NextReader;
  }

  lemma WireSnoc(wire: seq<Wire>, w: Wire)
    ensures WritesOnWire(wire + [w]) == WritesOnWire(wire) + if w.Write? then [w] else []
  {
    assert (wire + [w])[..|wire|] == wire;
  }

  lemma CallsSnoc(calls: seq<Call>, c: Call)
    ensures WritesOf(calls + [c]) == WritesOf(calls) + WriteOf(c)
  {
    assert (calls + [c])[..|calls|] == calls;
  }

  /** A step adds the same write to the wire and to what its thread accounts for. */
  lemma MoverAccounts(wire: seq<Wire>, calls: seq<Call>, t: Tid, pc: Pc, ok: bool, done: bool)
    ensures var w, c := NextWire(t, pc, ok), NextCall(t, pc);
      WritesOnWire(wire) == WritesOf(calls) + PendingOf(t, pc) ==>
        WritesOnWire(wire + w) == WritesOf(calls + c) + PendingOf(t, NextPc(pc, ok, done))
  {
    hide WritesOnWire, WritesOf;
    var w, c := NextWire(t, pc, ok), NextCall(t, pc);
    assert wire + [] == wire && calls + [] == calls;
    if w != [] { WireSnoc(wire, w[0]); assert w == [w[0]]; }
    if c != [] { CallsSnoc(calls, c[0]); assert c == [c[0]]; }
  }

  /** Only the holder of the lock has a write pending. */
  lemma LockAndPending(s: State, t: Tid)
    requires LockInv(s)
    ensures s.lock == Some(t) ==> PendingWrite(s) == PendingOf(t, PcOf(s, t))
    ensures s.lock != Some(t) ==> PendingOf(t, PcOf(s, t)) == []
    ensures s.lock == None ==> PendingWrite(s) == []
  {
    assert Holds(PcOf(s, t)) <==> s.lock == Some(t);
  }

  /** While another thread holds the lock, a step writes nothing and ends no call that wrote. */
  lemma Quiet(s: State, a: Action)
    requires Enabled(s, a) && a.Step? && LockInv(s) && s.lock != Some(a.tid) && s.lock != None
    ensures Apply(s, a).wire == s.wire && Apply(s, a).lock == s.lock
    ensures PendingWrite(Apply(s, a)) == PendingWrite(s)
    ensures WritesOf(Apply(s, a).calls) == WritesOf(s.calls)
  {
    Effect(s, a);
    var t := a.tid;
    assert Holds(PcOf(s, t)) <==> s.lock == Some(t);
    var c := NextCall(t, PcOf(s, t));
    if c != [] { CallsSnoc(s.calls, c[0]); assert c == [c[0]]; }
    assert s.wire + [] == s.wire && s.calls + [] == s.calls;
    hide WritesOf, Apply, PendingOf, NextPc, PcOf, Enabled;
  }

  /** Writes on the wire are accounted for by the finished calls and the call that holds the lock. */
  lemma KeepsAccount(s: State, a: Action)
    requires Enabled(s, a) && a.Step? && LockInv(s)
    requires WritesOnWire(s.wire) == WritesOf(s.calls) + PendingWrite(s)
    ensures WritesOnWire(Apply(s, a).wire) == WritesOf(Apply(s, a).calls) + PendingWrite(Apply(s, a))
  {
    var s', t := Apply(s, a), a.tid;
    Effect(s, a);
    MoverAccounts(s.wire, s.calls, t, PcOf(s, t), a.ok, s.done);
    LockAndPending(s, t);
    KeepsLock(s, a);
    LockAndPending(s', t);
    if s.lock != Some(t) && s.lock != None { Quiet(s, a); }
    hide WritesOnWire, WritesOf, Apply, PendingOf, NextPc, NextWire, NextCall, LockInv, PcOf, Enabled;
  }

  lemma KeepsVerdicts(s: State, a: Action)
    requires Enabled(s, a) && (forall t: Tid :: ThreadInv(s, t)) && DoneInv(s) && VerdictsInv(s)
    ensures VerdictsInv(Apply(s, a))
  {
    var s' := Apply(s, a);
    Effect(s, a);
    if a.Step? { assert ThreadInv(s, a.tid); NewVerdict(s, a); }
    hide Apply, PcOf, Enabled, Verdict, NextPc, NextWire, NextReader, ThreadInv, DoneInv;
    forall i | 0 <= i < |s'.calls|
      ensures Verdict(s', s'.calls[i])
    {
      if i < |s.calls| { VerdictStands(s, a, s.calls[i]); }
    }
  }

  lemma VerdictStands(s: State, a: Action, c: Call)
    requires Enabled(s, a) && DoneInv(s) && Verdict(s, c)
    ensures Verdict(Apply(s, a), c)
  {
    Effect(s, a);
    hide Apply, PcOf, Enabled, NextWire, NextCall;
  }

  lemma NewVerdict(s: State, a: Action)
    requires Enabled(s, a) && a.Step? && ThreadInv(s, a.tid)
    ensures var c := NextCall(a.tid, PcOf(s, a.tid));
      c == [] || (c == [c[0]] && Verdict(Apply(s, a), c[0]))
  {
    Effect(s, a);
    hide Apply, PcOf, Enabled, NextWire;
  }

  lemma KeepsCalls(s: State, a: Action)
    requires Enabled(s, a) && LockInv(s) && (forall t: Tid :: ThreadInv(s, t)) && DoneInv(s) && CallInv(s)
    ensures CallInv(Apply(s, a))
  {
    KeepsVerdicts(s, a);
    if a.Step? { KeepsAccount(s, a); } else { KeepsPending(s, a); }
    hide WritesOnWire, WritesOf, PendingWrite, Apply, VerdictsInv, Enabled, PcOf, LockInv, ThreadInv, DoneInv;
  }

  lemma KeepsPending(s: State, a: Action)
    requires Enabled(s, a) && !a.Step? && LockInv(s)
    ensures PendingWrite(Apply(s, a)) == PendingWrite(s)
    ensures Apply(s, a).wire == s.wire && Apply(s, a).calls == s.calls
  {
    Effect(s, a);
    if !a.ReaderStep? { assert Holds(PcOf(s, a.tid)) <==> s.lock == Some(a.tid); }
    hide Apply, PcOf, Enabled, PendingOf, NextReader, BeginPc;
  }

  lemma ActionKeepsInv(s: State, a: Action)
    requires Enabled(s, a) && Inv(s)
    ensures Inv(Apply(s, a))
  {
    hide Enabled, Apply, LockInv, ThreadInv, DoneInv, ReaderInv, WireInv, CallInv;
    KeepsLock(s, a);
    KeepsThreads(s, a);
    KeepsDone(s, a);
    KeepsReader(s, a);
    KeepsWire(s, a);
    KeepsCalls(s, a);
  }

  // -------------------------------------------------------------------- runs

  ghost predicate Reachable(s: State) { Reaches(Next, INITIAL, s) }

  lemma ReachableInv(s: State)
    requires Reachable(s)
    ensures Inv(s)
  {
    forall s, a | Inv(s) && Next(s, a).Some?
      ensures Inv(Next(s, a).value)
    {
      ActionKeepsInv(s, a);
    }
    assert Inv(INITIAL);
    ReachableKeeps(Next, s => Inv(s), INITIAL, s);
  }

  /** Nothing follows WritesDone on the wire: no write, and no second WritesDone. */
  lemma NothingFollowsWritesDone(s: State, i: nat)
    requires Reachable(s) && i < |s.wire| && s.wire[i].WritesDone?
    ensures i == |s.wire| - 1
  {
    ReachableInv(s);
  }

  /**
   WritesDone is written by the Close that flipped done, and by no one if the
   reader set done first; a Close reports that it flipped done only if it is that one.
   */
  lemma WritesDoneIsTheFlippingClose(s: State, t: Tid)
    requires Reachable(s)
    ensures WritesDone(t) in s.wire <==> s.flippedBy == Some(t) && !PcOf(s, t).CloseWritesDone?
    ensures CloseCall(t, true) in s.calls ==> WritesDone(t) in s.wire
    ensures s.flippedBy.Some? ==> s.done
  {
    ReachableInv(s);
  }

  /** Of all calls, at most one holds the lock, and the lock holder can always move. */
  lemma HolderIsNeverBlocked(s: State, t: Tid)
    requires Reachable(s) && s.lock == Some(t)
    ensures Enabled(s, Step(t, true))
    ensures forall u: Tid :: Holds(PcOf(s, u)) ==> u == t
  {
    ReachableInv(s);
    assert Holds(PcOf(s, t));
  }

  /** The finished Sends that were not refused, in the order they released the lock, are the writes on the wire. */
  lemma WireMatchesSends(s: State)
    requires Reachable(s) && s.lock == None
    ensures WritesOnWire(s.wire) == WritesOf(s.calls)
  {
    ReachableInv(s);
  }

  /** A Send that began after done was set is refused, whenever it gets the lock; none is refused on an open stream. */
  lemma LateSendsAreRefused(s: State, i: nat)
    requires Reachable(s) && i < |s.calls| && s.calls[i].SendCall?
    ensures s.calls[i].late ==> s.calls[i].result == Refused
    ensures s.calls[i].result == Refused ==> s.done
  {
    ReachableInv(s);
  }

  /** After any Close has released the lock, done is set, and every Send that begins is late. */
  lemma SendsAfterCloseAreLate(s: State, c: Tid, flipped: bool, t: Tid, e: Event)
    requires Reachable(s) && CloseCall(c, flipped) in s.calls && Enabled(s, BeginSend(t, e))
    ensures s.done && PcOf(Apply(s, BeginSend(t, e)), t) == SendWant(e, true)
  {
    ReachableInv(s);
  }

  /**
   done has a cause: a Close, or a Read that returned false.  A reader that has
   exited had come to the end of the stream, and had told on_error exactly once if
   the final status was not OK and not at all if it was.
   */
  lemma ReaderStopsForACause(s: State)
    requires Reachable(s)
    ensures s.done ==> s.flippedBy.Some? || s.readFailed
    ensures s.reader == Exited ==> s.readFailed && s.finished.Some? && s.notices == if s.finished.value then 0 else 1
    ensures s.notices <= 1
  {
    ReachableInv(s);
  }

  lemma StepReadsOn(s: State, a: Action)
    requires Enabled(s, a) && s.reader == Reading && a != ReaderStep(false)
    ensures Apply(s, a).reader == Reading && Apply(s, a).readFailed == s.readFailed
  {
    hide NextPc, NextWire, NextCall, BeginPc;
  }

  /** The reader reads on, whatever the callers do, until a Read returns false. */
  lemma {:induction false} ReadsOnUntilTheEnd(s: State, run: seq<Action>)
    requires s.reader == Reading && IsRun(Next, s, run) && ReaderStep(false) !in run
    ensures Exec(Next, s, run).reader == Reading && Exec(Next, s, run).readFailed == s.readFailed
    decreases |run|
  {
    hide Apply, Enabled;
    if run != [] {
      StepReadsOn(s, run[0]);
      ReadsOnUntilTheEnd(Apply(s, run[0]), run[1..]);
    }
  }

  // ------------------------------------------------- calls that have returned

  predicate Begins(a: Action) { a.BeginSend? || a.BeginClose? || a.BeginWait? }

  /** c is the record of a call begun by a, late if done was already set. */
  predicate Records(c: Call, a: Action, late: bool) {
    match a
    case BeginSend(t, e) => c.SendCall? && c.tid == t && c.event == e && c.late == late
    case BeginClose(t) => c.CloseCall? && c.tid == t
    case BeginWait(t) => c == WaitCall(t)
    case _ => false
  }

  /** Where such a call stands until it is recorded. */
  predicate Underway(pc: Pc, a: Action, late: bool) {
    match a
    case BeginSend(_, e) =>
      (pc.SendWant? || pc.SendCheck? || pc.SendWrite? || pc.SendUnlock?) && pc.event == e && pc.late == late
    case BeginClose(_) => pc.CloseWant? || pc.CloseExchange? || pc.CloseWritesDone? || pc.CloseUnlock?
    case BeginWait(_) => pc.WaitJoin?
    case _ => false
  }

  predicate RecordedSince(s: State, a: Action, late: bool, n: nat) {
    exists i :: n <= i < |s.calls| && Records(s.calls[i], a, late)
  }

  lemma StepRecords(s: State, b: Action, a: Action, late: bool, n: nat)
    requires Enabled(s, b) && Begins(a) && n <= |s.calls|
    requires Underway(PcOf(s, a.tid), a, late)
    ensures Underway(PcOf(Apply(s, b), a.tid), a, late) || RecordedSince(Apply(s, b), a, late, n)
  {
    Effect(s, b);
    if b.Step? && b.tid == a.tid && |s.calls| < |Apply(s, b).calls| {
      assert Records(Apply(s, b).calls[|s.calls|], a, late);
    }
  }

  lemma CallsGrow(s: State, b: Action)
    requires Enabled(s, b)
    ensures |s.calls| <= |Apply(s, b).calls| && Apply(s, b).calls[..|s.calls|] == s.calls
  {}

  lemma {:induction false} RunRecords(s: State, run: seq<Action>, a: Action, late: bool, n: nat)
    requires IsRun(Next, s, run) && Begins(a) && n <= |s.calls|
    requires Underway(PcOf(s, a.tid), a, late) || RecordedSince(s, a, late, n)
    ensures var t := Exec(Next, s, run);
      Underway(PcOf(t, a.tid), a, late) || RecordedSince(t, a, late, n)
    decreases |run|
  {
    if run != [] {
      var s' := Apply(s, run[0]);
      CallsGrow(s, run[0]);
      if RecordedSince(s, a, late, n) {
        var i :| n <= i < |s.calls| && Records(s.calls[i], a, late);
        assert s'.calls[i] == s'.calls[..|s.calls|][i];
      } else {
        StepRecords(s, run[0], a, late, n);
      }
      hide Apply, Enabled, PcOf, Underway, RecordedSince;
      RunRecords(s', run[1..], a, late, n);
    }
  }

  /** Every call that has returned is recorded, whatever other threads did meanwhile. */
  lemma EveryCallIsRecorded(s: State, a: Action, run: seq<Action>)
    requires Begins(a) && Enabled(s, a) && IsRun(Next, Apply(s, a), run)
    requires PcOf(Exec(Next, Apply(s, a), run), a.tid) == Idle
    ensures RecordedSince(Exec(Next, Apply(s, a), run), a, s.done, |s.calls|)
  {
    assert Underway(PcOf(Apply(s, a), a.tid), a, s.done);
    RunRecords(Apply(s, a), run, a, s.done, |s.calls|);
  }

  /** A Close that flipped done is waiting for the reader, or the reader has exited. */
  lemma FlippingCloseJoins(s: State, t: Tid)
    requires Reachable(s) && CloseCall(t, true) in s.calls && PcOf(s, t) != CloseJoin
    ensures s.reader == Exited && WritesDone(t) in s.wire
  {
    ReachableInv(s);
    WritesDoneIsTheFlippingClose(s, t);
  }

  /** A Wait returns only after the reader has exited. */
  lemma WaitJoins(s: State, t: Tid, run: seq<Action>)
    requires Reachable(s) && Enabled(s, BeginWait(t)) && IsRun(Next, Apply(s, BeginWait(t)), run)
    requires PcOf(Exec(Next, Apply(s, BeginWait(t)), run), t) == Idle
    ensures Exec(Next, Apply(s, BeginWait(t)), run).reader == Exited
  {
    var a := BeginWait(t);
    EveryCallIsRecorded(s, a, run);
    ReachesNext(Next, INITIAL, s, a);
    ReachesAfter(Next, INITIAL, Apply(s, a), run);
    ReachableInv(Exec(Next, Apply(s, a), run));
  }

  /**
   A Close that finds done clear writes WritesDone and returns only after the reader
   has exited.
   */
  lemma CloseOfOpenStreamWaits(s: State, t: Tid, ok: bool, run: seq<Action>)
    requires Reachable(s) && PcOf(s, t) == CloseExchange && !s.done
    requires IsRun(Next, Apply(s, Step(t, ok)), run)
    requires PcOf(Exec(Next, Apply(s, Step(t, ok)), run), t) == Idle
    ensures var u := Exec(Next, Apply(s, Step(t, ok)), run);
      u.reader == Exited && WritesDone(t) in u.wire
  {
    var u := Apply(s, Step(t, ok));
    assert Flips(u, t);
    RunFlips(u, run, t);
    ReachesNext(Next, INITIAL, s, Step(t, ok));
    ReachesAfter(Next, INITIAL, u, run);
    FlippingCloseJoins(Exec(Next, u, run), t);
  }

  predicate Flips(s: State, t: Tid) {
    PcOf(s, t) == CloseWritesDone || PcOf(s, t) == CloseUnlock(true) || CloseCall(t, true) in s.calls
  }

  lemma StepFlips(s: State, b: Action, t: Tid)
    requires Enabled(s, b) && Flips(s, t)
    ensures Flips(Apply(s, b), t)
  {
    Effect(s, b);
    if b.Step? && b.tid == t && PcOf(s, t) == CloseUnlock(true) {
      assert Apply(s, b).calls[|s.calls|] == CloseCall(t, true);
    }
  }

  lemma {:induction false} RunFlips(s: State, run: seq<Action>, t: Tid)
    requires IsRun(Next, s, run) && Flips(s, t)
    ensures Flips(Exec(Next, s, run), t)
    decreases |run|
  {
    hide Apply, Enabled, Flips;
    if run != [] {
      StepFlips(s, run[0], t);
      RunFlips(Apply(s, run[0]), run[1..], t);
    }
  }

  /**
   A Close that finds done set needs two steps of its own to return, whatever the
   reader is doing, and writes nothing.  So a Close waits exactly if it finds done clear.
   */
  lemma CloseOfDoneStreamReturns(s: State, t: Tid, ok: bool)
    requires PcOf(s, t) == CloseExchange && s.done
    ensures var run := [Step(t, ok), Step(t, ok)];
      && IsRun(Next, s, run)
      && var u := Exec(Next, s, run);
         PcOf(u, t) == Idle && u.reader == s.reader && u.wire == s.wire && u.calls == s.calls + [CloseCall(t, false)]
  {
    var b := Step(t, ok);
    var s1 := Apply(s, b);
    assert PcOf(s1, t) == CloseUnlock(false);
    var s2 := Apply(s1, b);
    assert IsRun(Next, s2, []) && Exec(Next, s2, []) == s2;
    assert IsRun(Next, s1, [b]) && [b][1..] == [];
    assert [b, b][1..] == [b];
  }

  // --------------------------------------------------------- calls can return

  /** Steps a call still needs of its own thread. */
  function PcRank(pc: Pc): nat {
    match pc
    case Idle => 0
    case SendWant(_, _) => 4
    case SendCheck(_, _) => 3
    case SendWrite(_, _) => 2
    case SendUnlock(_, _, _) => 1
    case CloseWant => 5
    case CloseExchange => 4
    case CloseWritesDone => 3
    case CloseUnlock(_) => 2
    case CloseJoin => 1
    case WaitJoin => 1
  }

  /** Steps the reader still needs once Read returns false. */
  function ReaderRank(pc: ReaderPc): nat {
    match pc
    case Reading => 3
    case StoringDone => 2
    case Finishing => 1
    case Notifying => 1
    case Exited => 0
  }

  /** Steps a call may have to wait for, with its own: of the lock holder if it wants the lock, and of the reader. */
  function Wait(s: State, t: Tid): nat {
    var pc := PcOf(s, t);
    PcRank(pc)
    + (if Wants(pc) && s.lock.Some? then HeldRank(PcOf(s, s.lock.value)) else 0)
    + ReaderRank(s.reader)
  }

  /** Steps until a holder lets go of the lock. */
  function HeldRank(pc: Pc): nat {
    match pc
    case SendCheck(_, _) => 3
    case SendWrite(_, _) => 2
    case SendUnlock(_, _, _) => 1
    case CloseExchange => 3
    case CloseWritesDone => 2
    case CloseUnlock(_) => 1
    case _ => 0
  }

  /** A step that brings the call of t nearer to its end. */
  function Helpful(s: State, t: Tid): Action {
    var pc := PcOf(s, t);
    if Wants(pc) && s.lock.Some? then Step(s.lock.value, true)
    else if Joins(pc) && s.reader != Exited then ReaderStep(s.reader == Finishing)
    else Step(t, true)
  }

  lemma HolderLetsGo(pc: Pc, done: bool)
    ensures Holds(pc) ==> if Unlocks(pc) then HeldRank(pc) > 0 else HeldRank(NextPc(pc, true, done)) < HeldRank(pc)
    ensures Holds(pc) ==> !Wants(pc) && !Joins(pc) && pc != Idle
    ensures pc != Idle ==> PcRank(NextPc(pc, true, done)) < PcRank(pc)
    ensures !Wants(NextPc(pc, true, done))
  {}

  lemma ReaderComesToItsEnd(pc: ReaderPc)
    ensures pc != Exited ==> ReaderRank(NextReader(pc, pc == Finishing)) < ReaderRank(pc)
  {}

  lemma HelpfulHelps(s: State, t: Tid)
    requires LockInv(s) && PcOf(s, t) != Idle
    ensures Enabled(s, Helpful(s, t)) && Wait(Apply(s, Helpful(s, t)), t) < Wait(s, t)
  {
    var a := Helpful(s, t);
    if s.lock.Some? { assert Holds(PcOf(s, s.lock.value)); }
    HolderLetsGo(PcOf(s, t), s.done);
    if s.lock.Some? { HolderLetsGo(PcOf(s, s.lock.value), s.done); }
    ReaderComesToItsEnd(s.reader);
    CanHelp(s, t);
    Effect(s, a);
    hide Apply, Enabled, PcOf, NextPc, NextWire, NextCall, NextReader, PcRank, HeldRank, ReaderRank, Holds;
  }

  lemma CanHelp(s: State, t: Tid)
    requires PcOf(s, t) != Idle
    requires s.lock.Some? ==> var pc := PcOf(s, s.lock.value); !Wants(pc) && !Joins(pc) && pc != Idle
    ensures Enabled(s, Helpful(s, t))
  {}

  /** Whatever the others are doing, a call can come to its end: no Send, Close or Wait waits for ever. */
  lemma {:induction false} CallReturns(s: State, t: Tid) returns (run: seq<Action>)
    requires Inv(s)
    ensures |run| <= Wait(s, t) && IsRun(Next, s, run) && PcOf(Exec(Next, s, run), t) == Idle
    decreases Wait(s, t)
  {
    hide Inv, Apply, Enabled, Wait, Helpful, PcOf;
    if PcOf(s, t) == Idle {
      run := [];
    } else {
      var a := Helpful(s, t);
      LockOf(s);
      HelpfulHelps(s, t);
      ActionKeepsInv(s, a);
      var rest := CallReturns(Apply(s, a), t);
      RunCons(Next, s, a, rest);
      run := [a] + rest;
    }
  }

  lemma LockOf(s: State)
    requires Inv(s)
    ensures LockInv(s)
  {}

  /**
   From every reachable state every call can return, in at most eleven steps of the
   threads and the reader together; a join, in at most four.
   */
  lemma EveryCallCanReturn(s: State, t: Tid) returns (run: seq<Action>)
    requires Reachable(s)
    ensures |run| <= 11 && IsRun(Next, s, run) && PcOf(Exec(Next, s, run), t) == Idle
    ensures Joins(PcOf(s, t)) ==> |run| <= 4
  {
    WaitBound(s, t);
    hide Reachable, Inv, Wait;
    ReachableInv(s);
    run := CallReturns(s, t);
  }

  /** In every reachable state an idle thread can make any call, and have it return and be recorded. */
  lemma AnyCallCanBeMade(s: State, a: Action) returns (run: seq<Action>)
    requires Reachable(s) && Begins(a) && PcOf(s, a.tid) == Idle
    ensures |run| <= 11 && IsRun(Next, s, [a] + run)
    ensures var t := Exec(Next, s, [a] + run);
      PcOf(t, a.tid) == Idle && RecordedSince(t, a, s.done, |s.calls|)
  {
    assert Enabled(s, a);
    hide Apply, Enabled, Reachable, PcOf, RecordedSince;
    ReachesAgain(s, a);
    run := EveryCallCanReturn(Apply(s, a), a.tid);
    RunCons(Next, s, a, run);
    EveryCallIsRecorded(s, a, run);
  }

  lemma ReachesAgain(s: State, a: Action)
    requires Reachable(s) && Enabled(s, a)
    ensures Reachable(Apply(s, a))
  {
    hide Apply, Enabled;
    ReachesNext(Next, INITIAL, s, a);
  }

  lemma WaitBound(s: State, t: Tid)
    ensures Wait(s, t) <= 11
    ensures Joins(PcOf(s, t)) ==> Wait(s, t) <= 4
  {
    hide PcOf;
  }

  // ------------------------------------------------------ close without a join

  lemma Reach(s: State, a: Action) returns (t: State)
    requires Reachable(s) && Enabled(s, a)
    ensures t == Apply(s, a) && Reachable(t)
  {
    hide Apply, Enabled;
    ReachesNext(Next, INITIAL, s, a);
    t := Apply(s, a);
  }

  /** The reader has found the end of the stream and set done; no other thread has done anything. */
  lemma ReaderSetsDone() returns (s: State)
    ensures Reachable(s) && s == State(true, None, map[], Finishing, None, [], [], true, None, 0)
  {
    s := INITIAL;
    ReachesInitial(Next, INITIAL);
    assert Reachable(s);
    hide Reachable;
    s := Reach(s, ReaderStep(false));
    s := Reach(s, ReaderStep(true));
  }

  /**
   A Close that finds done already set by the reader returns at once, without
   WritesDone and without waiting for the reader, which may still be running.
   */
  lemma CloseNeedNotJoin() returns (s: State)
    ensures Reachable(s) && CloseCall(0, false) in s.calls && PcOf(s, 0) == Idle
    ensures s.reader == Finishing && s.wire == []
  {
    s := ReaderSetsDone();
    hide Reachable;
    s := Reach(s, BeginClose(0));
    assert s.threads == map[0 := CloseWant];
    s := Reach(s, Step(0, true));
    assert s.threads == map[0 := CloseExchange];
    s := Reach(s, Step(0, true));
    assert s == State(true, Some(0), map[0 := CloseUnlock(false)], Finishing, None, [], [], true, None, 0);
    s := Reach(s, Step(0, true));
    assert s.calls == [CloseCall(0, false)];
  }
}
