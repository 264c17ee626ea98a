/**
 The queue downstream stream: any number of threads that poll, settle what was
 polled, and close, over one wire guarded by one mutex.

 Each action is one atomic access; a run is any interleaving.  The wire log
 records every write and read in order, and every settlement in it remembers the
 handle it was made through.
 */
module QueueDownstream {

  import opened Wrappers
  import opened Runs

  type Tid = nat

  type UInt64 = n: nat | n < 0x1_0000_0000_0000_0000

  /** static_cast<int64_t> of an unsigned sequence number. */
  function ToInt64(n: UInt64): int {
    if n < 0x8000_0000_0000_0000 then n else n - 0x1_0000_0000_0000_0000
  }

  datatype Verb = Ack | Nack | ReQueue

  /** A text field; only whether it is empty matters to the protocol. */
  datatype Text = Text(chars: string) {
    predicate Empty() { chars == "" }
  }

  const EMPTY := Text("")

  /** Request types on the wire. */
  function RequestType(verb: Verb, all: bool): int {
    match verb
    case Ack => if all then 2 else 3
    case Nack => if all then 4 else 5
    case ReQueue => if all then 6 else 7
  }

  datatype Frame =
    | Get(autoAck: bool)                                                        // request type 1
    | Settle(requestType: int, transaction: Text, sequences: seq<int>, requeue: Text)
    | CloseByClient                                                             // request type 10

  /** A poll response as read: the sequence of a message without attributes counts as 0. */
  datatype Response = Response(isError: bool, transaction: Text, sequences: seq<Option<UInt64>>)

  /** A poll response as handed to the user; read is the log position it came from. */
  datatype Handle = Handle(transaction: Text, autoAck: bool, sequences: seq<UInt64>, read: nat)

  /** Where a frame came from: for settlements, the read and, unless all are settled, the message. */
  datatype Source = FromPoll(valid: bool, late: bool) | FromMessage(read: nat, item: nat) | FromResponse(read: nat) | FromClose

  datatype Event =
    | Wrote(tid: Tid, frame: Frame, source: Source, ok: bool)
    | ReadOk(tid: Tid, response: Response)
    | ReadFailed(tid: Tid)
    | WritesDone(tid: Tid)

  datatype SettleError = AutoAck | Destroyed | NoTransaction | NoChannel

  /** What a settlement is asked to do: all of a response, or one of its messages. */
  datatype Request = Request(handle: Handle, verb: Verb, item: Option<nat>, channel: Text, emptied: bool)

  datatype Verdict = Refuse(error: SettleError) | Nothing | Send

  /** The guards of a settlement, in the order they are tried. */
  function Judge(q: Request, alive: bool): Verdict {
    if q.verb == ReQueue && q.channel.Empty() then Refuse(NoChannel)
    else if q.handle.autoAck then Refuse(AutoAck)
    else if !alive then Refuse(Destroyed)
    else if q.handle.transaction.Empty() then Refuse(NoTransaction)
    else if q.item.None? && (q.emptied || q.handle.sequences == []) then Nothing
    else Send
  }

  /** The request message a settlement writes. */
  function FrameOf(q: Request): Frame {
    Settle(RequestType(q.verb, q.item.None?), q.handle.transaction,
           if q.item.Some? && q.item.value < |q.handle.sequences| then [ToInt64(q.handle.sequences[q.item.value])] else [],
           if q.verb == ReQueue then q.channel else EMPTY)
  }

  function SourceOf(q: Request): Source {
    if q.item.Some? then FromMessage(q.handle.read, q.item.value) else FromResponse(q.handle.read)
  }

  predicate InRange(q: Request) { q.item.Some? ==> q.item.value < |q.handle.sequences| }

  datatype Outcome = Refused(error: SettleError) | NothingToDo | Written(ok: bool)

  /** A settlement call that has returned; alive says whether its receiver lived when it was judged. */
  datatype Call = Call(tid: Tid, request: Request, alive: bool, outcome: Outcome)

  datatype Pc =
    | Idle
    | PollCheck(autoAck: bool, valid: bool, late: bool)  // about to load closed
    | PollWant(autoAck: bool, valid: bool, late: bool)   // about to lock
    | PollWrite(autoAck: bool, valid: bool, late: bool)  // holds the lock, about to write Get
    | PollRead(autoAck: bool)                            // holds the lock, Get written
    | PollUnlock(answer: Option<Handle>)                 // holds the lock
    | PollBuild(answer: Option<Handle>)                  // about to hand the response to the user
    | SettleJudge(request: Request)                      // about to try the guards
    | SettleWant(request: Request)                       // let through, about to lock
    | SettleWrite(request: Request)                      // holds the lock
    | SettleUnlock(request: Request, ok: bool)           // holds the lock, frame written
    | CloseExchange(destroy: bool)                       // about to exchange closed
    | CloseWant(destroy: bool)
    | CloseWrite(destroy: bool)                          // holds the lock
    | CloseWritesDone(destroy: bool)
    | CloseUnlock(destroy: bool)
    | Release                                            // the destructor, about to drop the stream

  datatype State = State(
    closed: bool,
    alive: bool,              // the receiver still owns the stream
    destroying: bool,         // its destructor has begun
    lock: Option<Tid>,
    threads: map<Tid, Pc>,
    handles: seq<Handle>,     // every poll response handed out
    // History, read by no step:
    closer: Option<Tid>,      // the thread whose Close found closed clear
    log: seq<Event>,
    calls: seq<Call>          // settlements in the order they released the lock or were turned away
  )

  const INITIAL := State(false, true, false, None, map[], [], None, [], [])

  datatype Action =
    | BeginPoll(tid: Tid, autoAck: bool, valid: bool)    // valid: the channel passes validation
    | BeginSettle(tid: Tid, handle: nat, item: Option<nat>, verb: Verb, channel: Text, emptied: bool)
    | BeginClose(tid: Tid)
    | BeginDestroy(tid: Tid)
    | Step(tid: Tid, ok: bool, response: Response)       // ok, response: what Write or Read returns

  function PcOf(s: State, t: Tid): Pc { if t in s.threads then s.threads[t] else Idle }

  predicate Wants(pc: Pc) { pc.PollWant? || pc.SettleWant? || pc.CloseWant? }

  predicate Holds(pc: Pc) {
    pc.PollWrite? || pc.PollRead? || pc.PollUnlock? || pc.SettleWrite? || pc.SettleUnlock?
    || pc.CloseWrite? || pc.CloseWritesDone? || pc.CloseUnlock?
  }

  predicate UsesHandleOnly(pc: Pc) {
    pc == Idle || pc.SettleJudge? || pc.SettleWant? || pc.SettleWrite? || pc.SettleUnlock?
  }

  /**
   A receiver is destroyed once, while no Poll or Close on it is in progress, and
   not used afterwards; handles may outlive it.
   */
  ghost predicate Enabled(s: State, a: Action) {
    match a
    case BeginPoll(t, _, _) => PcOf(s, t) == Idle && !s.destroying
    case BeginSettle(t, i, item, _, _, _) =>
      PcOf(s, t) == Idle && i < |s.handles| && (item.Some? ==> item.value < |s.handles[i].sequences|)
    case BeginClose(t) => PcOf(s, t) == Idle && !s.destroying
    case BeginDestroy(t) =>
      PcOf(s, t) == Idle && !s.destroying && forall u: Tid :: UsesHandleOnly(PcOf(s, u))
    case Step(t, _, _) =>
      var pc := PcOf(s, t);
      pc != Idle && (Wants(pc) ==> s.lock == None)
  }

  function SequenceOr0(n: Option<UInt64>): UInt64 { if n.Some? then n.value else 0 }

  function HandleFor(r: Response, autoAck: bool, read: nat): Handle {
    Handle(r.transaction, autoAck,
           seq(|r.sequences|, i requires 0 <= i < |r.sequences| => SequenceOr0(r.sequences[i])), read)
  }

  /** Where a thread goes; at is the log position of a read it makes. */
  function NextPc(pc: Pc, ok: bool, r: Response, closed: bool, alive: bool, at: nat): Pc {
    match pc
    case Idle => Idle
    case PollCheck(autoAck, valid, late) => if closed || !valid then Idle else PollWant(autoAck, valid, late)
    case PollWant(autoAck, valid, late) => PollWrite(autoAck, valid, late)
    case PollWrite(autoAck, _, _) => if ok then PollRead(autoAck) else PollUnlock(None)
    case PollRead(autoAck) => PollUnlock(if ok && !r.isError then Some(HandleFor(r, autoAck, at)) else None)
    case PollUnlock(answer) => PollBuild(answer)
    case PollBuild(_) => Idle
    case SettleJudge(q) => if Judge(q, alive) == Send then SettleWant(q) else Idle
    case SettleWant(q) => SettleWrite(q)
    case SettleWrite(q) => SettleUnlock(q, ok)
    case SettleUnlock(_, _) => Idle
    case CloseExchange(destroy) => if !closed then CloseWant(destroy) else if destroy then Release else Idle
    case CloseWant(destroy) => CloseWrite(destroy)
    case CloseWrite(destroy) => CloseWritesDone(destroy)
    case CloseWritesDone(destroy) => CloseUnlock(destroy)
    case CloseUnlock(destroy) => if destroy then Release else Idle
    case Release => Idle
  }

  /** What a step puts in the log. */
  function NextEvent(t: Tid, pc: Pc, ok: bool, r: Response): seq<Event> {
    match pc
    case PollWrite(autoAck, valid, late) => [Wrote(t, Get(autoAck), FromPoll(valid, late), ok)]
    case PollRead(_) => [if ok then ReadOk(t, r) else ReadFailed(t)]
    case SettleWrite(q) => [Wrote(t, FrameOf(q), SourceOf(q), ok)]
    case CloseWrite(_) => [Wrote(t, CloseByClient, FromClose, ok)]
    case CloseWritesDone(_) => [WritesDone(t)]
    case _ => []
  }

  /** What a step adds to the settlements that have returned. */
  function NextCall(t: Tid, pc: Pc, alive: bool): seq<Call> {
    match pc
    case SettleJudge(q) => (
      match Judge(q, alive)
      case Refuse(error) => [Call(t, q, alive, Refused(error))]
      case Nothing => [Call(t, q, alive, NothingToDo)]
      case Send => []
    )
    case SettleUnlock(q, ok) => [Call(t, q, true, Written(ok))]
    case _ => []
  }

  predicate Unlocks(pc: Pc) { pc.PollUnlock? || pc.SettleUnlock? || pc.CloseUnlock? }

  function ApplyStep(s: State, t: Tid, ok: bool, r: Response): State {
    var pc := PcOf(s, t);
    s.(threads := s.threads[t := NextPc(pc, ok, r, s.closed, s.alive, |s.log|)],
       log := s.log + NextEvent(t, pc, ok, r),
       calls := s.calls + NextCall(t, pc, s.alive),
       lock := if Wants(pc) then Some(t) else if Unlocks(pc) then None else s.lock,
       handles := if pc.PollBuild? && pc.answer.Some? then s.handles + [pc.answer.value] else s.handles,
       closed := s.closed || pc.CloseExchange?,
       closer := if pc.CloseExchange? && !s.closed then Some(t) else s.closer,
       alive := s.alive && pc != Release)
  }

  /** Where a call starts. */
  function BeginPc(s: State, a: Action): Pc
    requires !a.Step? && (a.BeginSettle? ==> a.handle < |s.handles|)
  {
    match a
    case BeginPoll(_, autoAck, valid) => PollCheck(autoAck, valid, s.closed)
    case BeginSettle(_, i, item, verb, channel, emptied) => SettleJudge(Request(s.handles[i], verb, item, channel, emptied))
    case BeginClose(_) => CloseExchange(false)
    case BeginDestroy(_) => CloseExchange(true)
  }

  ghost function Apply(s: State, a: Action): State
    requires Enabled(s, a)
  {
    if a.Step? then ApplyStep(s, a.tid, a.ok, a.response)
    else s.(threads := s.threads[a.tid := BeginPc(s, a)], destroying := s.destroying || a.BeginDestroy?)
  }

  ghost function Next(s: State, a: Action): Option<State> {
    if Enabled(s, a) then Some(Apply(s, a)) else None
  }

  // --------------------------------------------------------------- invariant

  predicate IsGet(e: Event) { e.Wrote? && e.frame.Get? && e.ok }

  predicate IsRead(e: Event) { e.ReadOk? || e.ReadFailed? }

  predicate IsClose(e: Event) { e.Wrote? && e.frame.CloseByClient? }

  /** A Get that was written and its answer, or CloseByClient and WritesDone, stand together. */
  predicate Paired(e: Event, next: Event) {
    && (IsGet(e) <==> IsRead(next))
    && (IsClose(e) <==> next.WritesDone?)
    && (IsRead(next) || next.WritesDone? ==> e.tid == next.tid)
  }

  predicate WireInv(log: seq<Event>) {
    && (forall k :: 0 <= k < |log| - 1 ==> Paired(log[k], log[k + 1]))
    && (log != [] ==> !IsRead(log[0]) && !log[0].WritesDone?)
  }

  ghost predicate LockInv(s: State) {
    forall t: Tid :: Holds(PcOf(s, t)) <==> s.lock == Some(t)
  }

  /** What an unpaired last event says about the lock holder. */
  ghost predicate HolderInv(s: State) { LockInv(s) && GetHolder(s) && CloseHolder(s) }

  ghost predicate GetHolder(s: State) { forall t: Tid :: GetRight(s.log, t, PcOf(s, t)) }

  ghost predicate CloseHolder(s: State) { forall t: Tid :: CloseRight(s.log, t, PcOf(s, t)) }

  /** A thread is about to read exactly if the last event is its written Get. */
  predicate GetRight(log: seq<Event>, t: Tid, pc: Pc) {
    && (pc.PollRead? <==> log != [] && IsGet(log[|log| - 1]) && log[|log| - 1].tid == t)
    && (pc.PollRead? ==> log[|log| - 1].frame.autoAck == pc.autoAck)
  }

  /** A thread is about to call WritesDone exactly if the last event is its CloseByClient. */
  predicate CloseRight(log: seq<Event>, t: Tid, pc: Pc) {
    pc.CloseWritesDone? <==> log != [] && IsClose(log[|log| - 1]) && log[|log| - 1].tid == t
  }

  predicate BeforeClose(pc: Pc) { pc.CloseWant? || pc.CloseWrite? }

  /** CloseByClient is written only by the thread that flipped closed, once. */
  ghost predicate CloseInv(s: State) { CloserInv(s) && CloseWritten(s) && ClosesOnce(s.log) }

  ghost predicate CloserInv(s: State) {
    && (s.closer.Some? <==> s.closed)
    && (forall t: Tid :: BeforeClose(PcOf(s, t)) || PcOf(s, t).CloseWritesDone? ==> s.closer == Some(t))
    && (forall k :: 0 <= k < |s.log| && IsClose(s.log[k]) ==>
          s.closer == Some(s.log[k].tid) && !BeforeClose(PcOf(s, s.log[k].tid)))
  }

  /** The thread that flipped closed has written WritesDone, or is on its way. */
  ghost predicate CloseWritten(s: State) {
    s.closer.Some? ==> Closing(PcOf(s, s.closer.value)) || WritesDone(s.closer.value) in s.log
  }

  predicate Closing(pc: Pc) { BeforeClose(pc) || pc.CloseWritesDone? }

  predicate ClosesOnce(log: seq<Event>) {
    forall k, l :: 0 <= k < l < |log| && IsClose(log[k]) ==> !IsClose(log[l])
  }

  /** A poll that began after closed was set, or whose channel is not valid, never reaches the wire. */
  ghost predicate LateInv(s: State) {
    && (forall t: Tid :: LatePc(PcOf(s, t), s.closed))
    && (forall k :: 0 <= k < |s.log| ==> TimelyGet(s.log[k]))
  }

  predicate LatePc(pc: Pc, closed: bool) {
    (pc.PollCheck? && pc.late ==> closed) && (pc.PollWant? || pc.PollWrite? ==> pc.valid && !pc.late)
  }

  predicate TimelyGet(e: Event) { e.Wrote? && e.frame.Get? ==> e.source == FromPoll(true, false) }

  /** A handle repeats the response read at its place in the log, and the autoAck of the Get before it. */
  predicate HandleInv(log: seq<Event>, h: Handle) {
    && 0 < h.read < |log|
    && log[h.read].ReadOk? && !log[h.read].response.isError
    && IsGet(log[h.read - 1])
    && h == HandleFor(log[h.read].response, log[h.read - 1].frame.autoAck, h.read)
  }

  /**
   A settlement is justified by a response read earlier: it carries that response's
   transaction, which is not empty; it names one of its messages, or none to settle
   all; the poll did not ask for automatic acknowledgement; and it carries a channel
   exactly when it requeues.
   */
  predicate Justified(log: seq<Event>, frame: Frame, source: Source) {
    && frame.Settle?
    && (source.FromMessage? || source.FromResponse?)
    && 0 < source.read < |log|
    && log[source.read].ReadOk? && !log[source.read].response.isError
    && IsGet(log[source.read - 1]) && !log[source.read - 1].frame.autoAck
    && var r := log[source.read].response;
    && frame.transaction == r.transaction && !frame.transaction.Empty()
    && (source.FromMessage? ==>
          && source.item < |r.sequences|
          && frame.sequences == [ToInt64(SequenceOr0(r.sequences[source.item]))]
          && frame.requestType in {3, 5, 7})
    && (source.FromResponse? ==> r.sequences != [] && frame.sequences == [] && frame.requestType in {2, 4, 6})
    && (!frame.requeue.Empty() <==> frame.requestType in {6, 7})
  }

  /** The settlements that should be written. */
  predicate Accepted(q: Request, alive: bool) {
    && alive && !q.handle.autoAck && !q.handle.transaction.Empty()
    && (q.verb == ReQueue ==> !q.channel.Empty())
    && (q.item.None? ==> !q.emptied && q.handle.sequences != [])
  }

  predicate ThreadInv(log: seq<Event>, pc: Pc) {
    match pc
    case PollUnlock(answer) => answer.Some? ==> HandleInv(log, answer.value)
    case PollBuild(answer) => answer.Some? ==> HandleInv(log, answer.value)
    case SettleJudge(q) => HandleInv(log, q.handle) && InRange(q)
    case SettleWant(q) => HandleInv(log, q.handle) && InRange(q) && Accepted(q, true)
    case SettleWrite(q) => HandleInv(log, q.handle) && InRange(q) && Accepted(q, true)
    case SettleUnlock(q, _) => Accepted(q, true)
    case _ => true
  }

  predicate HandlesInv(s: State) { forall i :: 0 <= i < |s.handles| ==> HandleInv(s.log, s.handles[i]) }

  ghost predicate SettleInv(s: State) {
    && HandlesInv(s)
    && (forall t: Tid :: ThreadInv(s.log, PcOf(s, t)))
    && SettledLog(s.log)
  }

  predicate SettledLog(log: seq<Event>) {
    forall k :: 0 <= k < |log| && log[k].Wrote? && log[k].frame.Settle? ==>
      Justified(log[..k], log[k].frame, log[k].source)
  }

  /** The settlement frames in a log, in order. */
  function SettlesIn(log: seq<Event>): seq<Event> {
    if log == [] then []
    else
      var n := |log| - 1;
      SettlesIn(log[..n]) + if log[n].Wrote? && log[n].frame.Settle? then [log[n]] else []
  }

  /** The frames that returned settlements account for, in order. */
  function WritesOf(calls: seq<Call>): seq<Event> {
    if calls == [] then []
    else WritesOf(calls[..|calls| - 1]) + WriteOf(calls[|calls| - 1])
  }

  function WriteOf(c: Call): seq<Event> {
    if c.outcome.Written? then [Wrote(c.tid, FrameOf(c.request), SourceOf(c.request), c.outcome.ok)] else []
  }

  /** The frame of a settlement that has not yet released the lock. */
  function PendingOf(t: Tid, pc: Pc): seq<Event> {
    if pc.SettleUnlock? then WriteOf(Call(t, pc.request, true, Written(pc.ok))) else []
  }

  function Pending(s: State): seq<Event> {
    if s.lock == None then [] else PendingOf(s.lock.value, PcOf(s, s.lock.value))
  }

  ghost predicate CallInv(s: State) {
    && SettlesIn(s.log) == WritesOf(s.calls) + Pending(s)
    && OutcomesInv(s)
  }

  /** While the receiver lives, every call so far was judged while it lived. */
  predicate OutcomesInv(s: State) {
    forall i :: 0 <= i < |s.calls| ==> RightOutcome(s.calls[i]) && (s.alive ==> s.calls[i].alive)
  }

  predicate RightOutcome(c: Call) { RightAnswer(c.outcome, c.request, c.alive) }

  /** What a settlement answers, case by case. */
  predicate RightAnswer(outcome: Outcome, q: Request, alive: bool) {
    var h := q.handle;
    var named := q.verb == ReQueue ==> !q.channel.Empty();
    && (outcome == Refused(NoChannel) <==> !named)
    && (outcome == Refused(AutoAck) <==> named && h.autoAck)
    && (outcome == Refused(Destroyed) <==> named && !h.autoAck && !alive)
    && (outcome == Refused(NoTransaction) <==> named && !h.autoAck && alive && h.transaction.Empty())
    && (outcome == NothingToDo <==>
          named && !h.autoAck && alive && !h.transaction.Empty() && q.item.None? && (q.emptied || h.sequences == []))
    && (outcome.Written? <==> Accepted(q, alive))
  }

  predicate IsGetWrite(e: Event) { e.Wrote? && e.frame.Get? }

  /** Begun before closed was set, and not yet at its Get. */
  predicate Early(pc: Pc) { (pc.PollCheck? && !pc.late) || pc.PollWant? || pc.PollWrite? }

  /** After CloseByClient each thread writes at most the Get of the poll it was already in. */
  ghost predicate TailInv(s: State) { TailIsEarly(s) && TailIsDistinct(s.log) }

  ghost predicate TailIsEarly(s: State) {
    forall j, k :: 0 <= j < k < |s.log| && IsClose(s.log[j]) && IsGetWrite(s.log[k]) ==> !Early(PcOf(s, s.log[k].tid))
  }

  predicate TailIsDistinct(log: seq<Event>) {
    forall j, k, l :: 0 <= j < k < l < |log| && IsClose(log[j]) && IsGetWrite(log[k]) && IsGetWrite(log[l]) ==>
      log[k].tid != log[l].tid
  }

  predicate HandedOut(handles: seq<Handle>, k: nat) {
    exists i :: 0 <= i < |handles| && handles[i].read == k
  }

  /** The thread is about to hand out what it read at position k. */
  predicate Carries(pc: Pc, k: nat) {
    (pc.PollUnlock? || pc.PollBuild?) && pc.answer.Some? && pc.answer.value.read == k
  }

  /** Each response read without error is handed out once, by the thread that read it. */
  ghost predicate AnswerInv(s: State) { Answered(s) && CarriedInv(s) && DistinctReads(s.handles) }

  predicate Answered(s: State) {
    forall k: nat :: k < |s.log| && s.log[k].ReadOk? && !s.log[k].response.isError ==>
      HandedOut(s.handles, k) || Carries(PcOf(s, s.log[k].tid), k)
  }

  ghost predicate CarriedInv(s: State) { forall t: Tid, k: nat :: CarriedRight(s, t, k) }

  predicate CarriedRight(s: State, t: Tid, k: nat) {
    Carries(PcOf(s, t), k) ==> k < |s.log| && IsRead(s.log[k]) && s.log[k].tid == t && !HandedOut(s.handles, k)
  }

  predicate DistinctReads(handles: seq<Handle>) {
    forall i, j :: 0 <= i < j < |handles| ==> handles[i].read != handles[j].read
  }

  ghost predicate Inv(s: State) {
    && WireInv(s.log) && HolderInv(s) && CloseInv(s) && LateInv(s) && SettleInv(s)
    && CallInv(s) && TailInv(s) && AnswerInv(s)
  }

  /** Only the moving thread's position changes, and the log grows by at most one event. */
  lemma Effect(s: State, a: Action)
    requires Enabled(s, a)
    ensures var s' := Apply(s, a); var pc := PcOf(s, a.tid);
      && (forall t: Tid :: t != a.tid ==> PcOf(s', t) == PcOf(s, t))
      && (!a.Step? ==>
           && PcOf(s', a.tid) == BeginPc(s, a) && pc == Idle
           && s'.log == s.log && s'.calls == s.calls && s'.handles == s.handles && s'.lock == s.lock
           && s'.closed == s.closed && s'.closer == s.closer && s'.alive == s.alive
           && s'.destroying == (s.destroying || a.BeginDestroy?))
      && (a.Step? ==>
           && PcOf(s', a.tid) == NextPc(pc, a.ok, a.response, s.closed, s.alive, |s.log|)
           && s'.log == s.log + NextEvent(a.tid, pc, a.ok, a.response)
           && s'.calls == s.calls + NextCall(a.tid, pc, s.alive)
           && s'.lock == (if Wants(pc) then Some(a.tid) else if Unlocks(pc) then None else s.lock)
           && s'.handles == (if pc.PollBuild? && pc.answer.Some? then s.handles + [pc.answer.value] else s.handles)
           && s'.closed == (s.closed || pc.CloseExchange?)
           && s'.closer == (if pc.CloseExchange? && !s.closed then Some(a.tid) else s.closer)
           && s'.alive == (s.alive && pc != Release) && s'.destroying == s.destroying)
  {
    hide NextPc, NextEvent, NextCall, BeginPc, Wants, Unlocks, Holds;
  }

  lemma KeepsLock(s: State, a: Action)
    requires Enabled(s, a) && LockInv(s)
    ensures LockInv(Apply(s, a))
  {
    Effect(s, a);
    hide Judge, HandleFor, NextEvent, Apply, PcOf;
  }

  /** What a step writes or reads, and where it comes from and leads to. */
  lemma EventFacts(t: Tid, pc: Pc, ok: bool, r: Response, closed: bool, alive: bool, at: nat)
    ensures var e, pc' := NextEvent(t, pc, ok, r), NextPc(pc, ok, r, closed, alive, at);
      && (e == [] || e == [e[0]])
      && (e != [] ==> Holds(pc) && !Unlocks(pc) && e[0].tid == t)
      && (pc'.PollRead? <==> e != [] && IsGet(e[0]))
      && (pc'.PollRead? ==> e[0].frame.autoAck == pc'.autoAck)
      && (pc'.CloseWritesDone? <==> e != [] && IsClose(e[0]))
      && (pc.PollRead? <==> e != [] && IsRead(e[0]))
      && (pc.CloseWritesDone? <==> e != [] && e[0].WritesDone?)
  {
    hide Judge, HandleFor;
  }

  lemma PcFacts(pc: Pc)
    ensures pc.PollRead? || pc.CloseWritesDone? || Unlocks(pc) ==> Holds(pc)
    ensures Wants(pc) ==> !Holds(pc)
    ensures pc.PollRead? ==> !pc.CloseWritesDone?
  {}

  lemma BeginFacts(s: State, a: Action)
    requires Enabled(s, a) && !a.Step?
    ensures !BeginPc(s, a).PollRead? && !BeginPc(s, a).CloseWritesDone? && !Holds(PcOf(s, a.tid))
  {
    hide PcOf;
  }

  /** The two facts survive for one thread, whether it moves or not. */
  lemma KeepsRight(s: State, a: Action, t: Tid)
    requires Enabled(s, a) && LockInv(s) && GetRight(s.log, t, PcOf(s, t)) && CloseRight(s.log, t, PcOf(s, t))
    ensures GetRight(Apply(s, a).log, t, PcOf(Apply(s, a), t)) && CloseRight(Apply(s, a).log, t, PcOf(Apply(s, a), t))
  {
    Effect(s, a);
    var pc := PcOf(s, a.tid);
    assert Holds(pc) <==> s.lock == Some(a.tid);
    assert Holds(PcOf(s, t)) <==> s.lock == Some(t);
    PcFacts(PcOf(s, t));
    if a.Step? { EventFacts(a.tid, pc, a.ok, a.response, s.closed, s.alive, |s.log|); } else { BeginFacts(s, a); }
    hide Apply, PcOf, NextPc, NextEvent, NextCall, BeginPc, Holds, Wants, Unlocks, IsGet, IsClose, IsRead, Enabled, LockInv;
  }

  lemma KeepsHolders(s: State, a: Action)
    requires Enabled(s, a) && HolderInv(s)
    ensures GetHolder(Apply(s, a)) && CloseHolder(Apply(s, a))
  {
    hide Enabled, Apply, LockInv, GetRight, CloseRight, PcOf;
    forall t: Tid
      ensures GetRight(Apply(s, a).log, t, PcOf(Apply(s, a), t))
      ensures CloseRight(Apply(s, a).log, t, PcOf(Apply(s, a), t))
    {
      assert GetRight(s.log, t, PcOf(s, t)) && CloseRight(s.log, t, PcOf(s, t));
      KeepsRight(s, a, t);
    }
  }

  lemma KeepsHolder(s: State, a: Action)
    requires Enabled(s, a) && HolderInv(s)
    ensures HolderInv(Apply(s, a))
  {
    hide Enabled, Apply, GetHolder, CloseHolder, LockInv;
    KeepsLock(s, a);
    KeepsHolders(s, a);
  }

  lemma WireGrows(log: seq<Event>, e: Event)
    requires WireInv(log)
    requires if log == [] then !IsRead(e) && !e.WritesDone? else Paired(log[|log| - 1], e)
    ensures WireInv(log + [e])
  {
    hide IsRead, Paired;
    forall k | 0 <= k < |log|
      ensures Paired((log + [e])[k], (log + [e])[k + 1])
    {
      if k < |log| - 1 { assert Paired(log[k], log[k + 1]); }
    }
  }

  /** An unanswered Get, or a CloseByClient without its WritesDone, is that of the lock holder. */
  lemma LastHolds(s: State, t: Tid)
    requires HolderInv(s) && s.log != []
    ensures var e := s.log[|s.log| - 1];
      && GetRight(s.log, t, PcOf(s, t)) && CloseRight(s.log, t, PcOf(s, t))
      && (IsGet(e) ==> s.lock == Some(e.tid) && PcOf(s, e.tid).PollRead?)
      && (IsClose(e) ==> s.lock == Some(e.tid) && PcOf(s, e.tid).CloseWritesDone?)
      && (Holds(PcOf(s, t)) <==> s.lock == Some(t))
  {
    var e := s.log[|s.log| - 1];
    assert GetRight(s.log, e.tid, PcOf(s, e.tid)) && CloseRight(s.log, e.tid, PcOf(s, e.tid));
    assert Holds(PcOf(s, e.tid)) <==> s.lock == Some(e.tid);
    PcFacts(PcOf(s, e.tid));
    hide PcOf, Holds, IsGet, IsClose;
  }

  lemma KeepsWire(s: State, a: Action)
    requires Enabled(s, a) && HolderInv(s) && WireInv(s.log)
    ensures WireInv(Apply(s, a).log)
  {
    Effect(s, a);
    var pc := PcOf(s, a.tid);
    if a.Step? {
      EventFacts(a.tid, pc, a.ok, a.response, s.closed, s.alive, |s.log|);
      var e := NextEvent(a.tid, pc, a.ok, a.response);
      if s.log != [] { LastHolds(s, a.tid); }
      hide Apply, NextPc, NextEvent, NextCall, Holds, Wants, Unlocks, IsGet, IsClose, IsRead, Enabled, LockInv, WireInv, PcOf;
      if e == [] { assert s.log + e == s.log; } else { WireGrows(s.log, e[0]); }
    }
  }

  lemma CloserFacts(t: Tid, pc: Pc, ok: bool, r: Response, closed: bool, alive: bool, at: nat)
    ensures var pc' := NextPc(pc, ok, r, closed, alive, at);
      && (Closing(pc') ==> Closing(pc) || (pc.CloseExchange? && !closed))
      && (BeforeClose(pc') && !BeforeClose(pc) ==> pc.CloseExchange?)
      && (pc.CloseExchange? ==> !Closing(pc))
  {
    hide Judge, HandleFor;
  }

  lemma KeepsCloser(s: State, a: Action)
    requires Enabled(s, a) && CloserInv(s)
    ensures CloserInv(Apply(s, a))
  {
    Effect(s, a);
    var pc := PcOf(s, a.tid);
    if a.Step? {
      CloserFacts(a.tid, pc, a.ok, a.response, s.closed, s.alive, |s.log|);
      CloseIsMeant(a.tid, pc, a.ok, a.response, s.closed, s.alive, |s.log|);
      OneEvent(a.tid, pc, a.ok, a.response);
    }
    hide Apply, PcOf, NextPc, NextEvent, NextCall, IsClose, BeforeClose, Enabled;
  }

  lemma KeepsCloseWritten(s: State, a: Action)
    requires Enabled(s, a) && CloserInv(s) && CloseWritten(s)
    ensures CloseWritten(Apply(s, a))
  {
    Effect(s, a);
    var s', pc := Apply(s, a), PcOf(s, a.tid);
    if a.Step? { CloseGoesOn(a.tid, pc, a.ok, a.response, s.closed, s.alive, |s.log|); }
    hide Apply, NextPc, NextEvent, NextCall, BeginPc, PcOf, Closing;
  }

  lemma CloseGoesOn(t: Tid, pc: Pc, ok: bool, r: Response, closed: bool, alive: bool, at: nat)
    ensures var pc' := NextPc(pc, ok, r, closed, alive, at);
      && (Closing(pc) ==> Closing(pc') || NextEvent(t, pc, ok, r) == [WritesDone(t)])
      && (pc.CloseExchange? && !closed ==> Closing(pc'))
      && !Closing(Idle)
  {
    hide Judge, HandleFor, FrameOf, SourceOf;
  }

  lemma KeepsClose(s: State, a: Action)
    requires Enabled(s, a) && CloseInv(s)
    ensures CloseInv(Apply(s, a))
  {
    KeepsCloser(s, a);
    KeepsCloseWritten(s, a);
    Effect(s, a);
    var pc := PcOf(s, a.tid);
    if a.Step? {
      OneEvent(a.tid, pc, a.ok, a.response);
      CloseIsMeant(a.tid, pc, a.ok, a.response, s.closed, s.alive, |s.log|);
    }
    hide Apply, NextPc, NextEvent, NextCall, BeginPc, IsClose, PcOf, BeforeClose;
  }

  lemma CloseIsMeant(t: Tid, pc: Pc, ok: bool, r: Response, closed: bool, alive: bool, at: nat)
    ensures var e := NextEvent(t, pc, ok, r);
      e != [] && IsClose(e[0]) ==>
        BeforeClose(pc) && !BeforeClose(NextPc(pc, ok, r, closed, alive, at)) && e[0].tid == t
  {
    hide Judge, HandleFor;
  }

  lemma LateFacts(t: Tid, pc: Pc, ok: bool, r: Response, closed: bool, alive: bool, at: nat)
    requires LatePc(pc, closed)
    ensures LatePc(NextPc(pc, ok, r, closed, alive, at), closed || pc.CloseExchange?)
    ensures var e := NextEvent(t, pc, ok, r);
      e == [] || (e == [e[0]] && TimelyGet(e[0]))
  {
    hide Judge, HandleFor;
  }

  lemma LateBegins(s: State, a: Action)
    requires Enabled(s, a) && !a.Step?
    ensures LatePc(BeginPc(s, a), s.closed)
  {
    hide PcOf;
  }

  lemma KeepsLate(s: State, a: Action)
    requires Enabled(s, a) && LateInv(s)
    ensures LateInv(Apply(s, a))
  {
    Effect(s, a);
    var s', pc := Apply(s, a), PcOf(s, a.tid);
    assert LatePc(pc, s.closed);
    if a.Step? { LateFacts(a.tid, pc, a.ok, a.response, s.closed, s.alive, |s.log|); } else { LateBegins(s, a); }
    hide Apply, PcOf, NextPc, NextEvent, NextCall, BeginPc, TimelyGet, Enabled;
    forall t: Tid
      ensures LatePc(PcOf(s', t), s'.closed)
    {
      assert LatePc(PcOf(s, t), s.closed);
    }
  }

  lemma HandleSurvives(log: seq<Event>, e: Event, h: Handle)
    requires HandleInv(log, h)
    ensures HandleInv(log + [e], h)
  {}

  lemma ThreadSurvives(log: seq<Event>, e: Event, pc: Pc)
    requires ThreadInv(log, pc)
    ensures ThreadInv(log + [e], pc)
  {
    hide HandleInv, Accepted;
    match pc
    case PollUnlock(answer) => if answer.Some? { HandleSurvives(log, e, answer.value); }
    case PollBuild(answer) => if answer.Some? { HandleSurvives(log, e, answer.value); }
    case SettleJudge(q) => HandleSurvives(log, e, q.handle);
    case SettleWant(q) => HandleSurvives(log, e, q.handle);
    case SettleWrite(q) => HandleSurvives(log, e, q.handle);
    case _ =>
  }

  /** The guards let through exactly the settlements that should be written. */
  lemma JudgeAccepts(q: Request, alive: bool)
    ensures Judge(q, alive) == Send <==> Accepted(q, alive)
  {}

  /** What should be written is justified by the response behind the handle. */
  lemma AcceptedIsJustified(log: seq<Event>, q: Request)
    requires HandleInv(log, q.handle) && InRange(q) && Accepted(q, true)
    ensures Justified(log, FrameOf(q), SourceOf(q))
  {}

  /** A step leaves its own thread justified. */
  lemma MoverKeepsThread(log: seq<Event>, t: Tid, pc: Pc, ok: bool, r: Response, closed: bool, alive: bool)
    requires ThreadInv(log, pc)
    requires pc.PollRead? ==> log != [] && IsGet(log[|log| - 1]) && log[|log| - 1].frame.autoAck == pc.autoAck
    ensures ThreadInv(log + NextEvent(t, pc, ok, r), NextPc(pc, ok, r, closed, alive, |log|))
  {
    hide Judge, Accepted, FrameOf, SourceOf;
    if pc.SettleJudge? {
      JudgeAccepts(pc.request, alive);
      AcceptedNeedsLife(pc.request, alive);
      assert log + NextEvent(t, pc, ok, r) == log;
    } else if pc.SettleWant? || pc.PollUnlock? {
      assert log + NextEvent(t, pc, ok, r) == log;
    }
  }

  lemma AcceptedNeedsLife(q: Request, alive: bool)
    ensures Accepted(q, alive) ==> alive && Accepted(q, true)
  {}

  lemma OtherKeepsThread(log: seq<Event>, e: seq<Event>, pc: Pc)
    requires ThreadInv(log, pc) && (e == [] || e == [e[0]])
    ensures ThreadInv(log + e, pc)
  {
    hide ThreadInv;
    if e == [] { assert log + e == log; } else { ThreadSurvives(log, e[0], pc); }
  }

  lemma KeepsThread(s: State, a: Action, t: Tid)
    requires Enabled(s, a) && ThreadInv(s.log, PcOf(s, t)) && ThreadInv(s.log, PcOf(s, a.tid))
    requires GetHolder(s) && HandlesInv(s)
    ensures ThreadInv(Apply(s, a).log, PcOf(Apply(s, a), t))
  {
    var pc := PcOf(s, a.tid);
    Effect(s, a);
    if t != a.tid {
      hide Apply, PcOf, ThreadInv, NextPc, NextEvent, NextCall, BeginPc, GetHolder, HandlesInv;
      if a.Step? {
        OneEvent(a.tid, pc, a.ok, a.response);
        OtherKeepsThread(s.log, NextEvent(a.tid, pc, a.ok, a.response), PcOf(s, t));
      }
    } else if a.Step? {
      hide Apply, PcOf, ThreadInv, NextPc, NextEvent, NextCall, HandlesInv;
      MoverKeepsThread(s.log, t, pc, a.ok, a.response, s.closed, s.alive);
    } else {
      hide PcOf, HandleInv, GetHolder;
    }
  }

  lemma KeepsThreads(s: State, a: Action)
    requires Enabled(s, a) && HolderInv(s) && SettleInv(s)
    ensures forall t: Tid :: ThreadInv(Apply(s, a).log, PcOf(Apply(s, a), t))
  {
    hide Apply, PcOf, ThreadInv, LockInv, GetHolder, CloseHolder, HandlesInv, SettledLog, Enabled;
    forall t: Tid
      ensures ThreadInv(Apply(s, a).log, PcOf(Apply(s, a), t))
    {
      assert ThreadInv(s.log, PcOf(s, t)) && ThreadInv(s.log, PcOf(s, a.tid));
      KeepsThread(s, a, t);
    }
  }

  lemma OneEvent(t: Tid, pc: Pc, ok: bool, r: Response)
    ensures var e := NextEvent(t, pc, ok, r);
      e == [] || e == [e[0]]
  {}

  lemma KeepsHandles(s: State, a: Action)
    requires Enabled(s, a) && SettleInv(s)
    ensures forall i :: 0 <= i < |Apply(s, a).handles| ==> HandleInv(Apply(s, a).log, Apply(s, a).handles[i])
  {
    var s', pc := Apply(s, a), PcOf(s, a.tid);
    assert ThreadInv(s.log, pc);
    hide HandleInv, Justified, Judge, NextPc, BeginPc;
    if a.Step? { OneEvent(a.tid, pc, a.ok, a.response); }
    assert s'.handles != s.handles ==> s'.log == s.log;
    forall i | 0 <= i < |s.handles|
      ensures HandleInv(s'.log, s.handles[i])
    {
      if s'.log != s.log { HandleSurvives(s.log, s'.log[|s.log|], s.handles[i]); }
    }
  }

  lemma SettledLogGrows(log: seq<Event>, e: Event)
    requires SettledLog(log) && (e.Wrote? && e.frame.Settle? ==> Justified(log, e.frame, e.source))
    ensures SettledLog(log + [e])
  {
    hide Justified;
    var log' := log + [e];
    forall k | 0 <= k < |log'| && log'[k].Wrote? && log'[k].frame.Settle?
      ensures Justified(log'[..k], log'[k].frame, log'[k].source)
    {
      if k < |log| { assert log'[..k] == log[..k]; } else { assert log'[..k] == log; }
    }
  }

  lemma NewSettlement(log: seq<Event>, t: Tid, pc: Pc, ok: bool, r: Response)
    requires ThreadInv(log, pc)
    ensures var e := NextEvent(t, pc, ok, r);
      e == [] || (e == [e[0]] && (e[0].Wrote? && e[0].frame.Settle? ==> Justified(log, e[0].frame, e[0].source)))
  {
    hide Justified, HandleInv, FrameOf, SourceOf, Accepted;
    if pc.SettleWrite? { AcceptedIsJustified(log, pc.request); }
  }

  lemma KeepsSettlements(s: State, a: Action)
    requires Enabled(s, a) && SettleInv(s)
    ensures SettledLog(Apply(s, a).log)
  {
    var e := if a.Step? then NextEvent(a.tid, PcOf(s, a.tid), a.ok, a.response) else [];
    assert ThreadInv(s.log, PcOf(s, a.tid));
    Effect(s, a);
    if a.Step? { NewSettlement(s.log, a.tid, PcOf(s, a.tid), a.ok, a.response); }
    hide Apply, PcOf, NextPc, NextEvent, NextCall, BeginPc, Justified, ThreadInv, HandleInv, SettledLog;
    if e == [] { assert s.log + [] == s.log; } else { SettledLogGrows(s.log, e[0]); }
  }

  lemma SettlesGrow(log: seq<Event>, e: Event)
    ensures SettlesIn(log + [e]) == SettlesIn(log) + if e.Wrote? && e.frame.Settle? then [e] else []
  {
    assert (log + [e])[..|log|] == log;
  }

  lemma WritesGrow(calls: seq<Call>, c: Call)
    ensures WritesOf(calls + [c]) == WritesOf(calls) + WriteOf(c)
  {
    assert (calls + [c])[..|calls|] == calls;
  }

  lemma FrameSettles(q: Request)
    ensures FrameOf(q).Settle?
  {}

  /** A step of the thread that moves adds the same frame to the log and to what the calls account for. */
  lemma MoverAccounts(log: seq<Event>, calls: seq<Call>, t: Tid, pc: Pc, ok: bool, r: Response, closed: bool, alive: bool, at: nat)
    ensures var e, c := NextEvent(t, pc, ok, r), NextCall(t, pc, alive);
      SettlesIn(log) == WritesOf(calls) + PendingOf(t, pc) ==>
        SettlesIn(log + e) == WritesOf(calls + c) + PendingOf(t, NextPc(pc, ok, r, closed, alive, at))
  {
    hide SettlesIn, WritesOf, Judge, HandleFor, FrameOf, SourceOf;
    var e, c := NextEvent(t, pc, ok, r), NextCall(t, pc, alive);
    if pc.SettleWrite? { FrameSettles(pc.request); }
    assert log + [] == log && calls + [] == calls;
    if e != [] { SettlesGrow(log, e[0]); assert e == [e[0]]; }
    if c != [] { WritesGrow(calls, c[0]); assert c == [c[0]]; }
  }

  lemma KeepsAccount(s: State, a: Action)
    requires Enabled(s, a) && a.Step? && LockInv(s) && CallInv(s)
    ensures SettlesIn(Apply(s, a).log) == WritesOf(Apply(s, a).calls) + Pending(Apply(s, a))
  {
    var s', pc, t := Apply(s, a), PcOf(s, a.tid), a.tid;
    Effect(s, a);
    MoverAccounts(s.log, s.calls, t, pc, a.ok, a.response, s.closed, s.alive, |s.log|);
    LockAndPending(s, t);
    KeepsLock(s, a);
    LockAndPending(s', t);
    if s.lock != Some(t) && s.lock != None { Quiet(s, a); }
    hide SettlesIn, WritesOf, Apply, PendingOf, NextPc, NextEvent, NextCall, LockInv, PcOf;
  }

  /** Only the holder of the lock has a frame pending. */
  lemma LockAndPending(s: State, t: Tid)
    requires LockInv(s)
    ensures s.lock == Some(t) ==> Pending(s) == PendingOf(t, PcOf(s, t))
    ensures s.lock != Some(t) ==> PendingOf(t, PcOf(s, t)) == []
    ensures s.lock == None ==> Pending(s) == []
  {
    assert Holds(PcOf(s, t)) <==> s.lock == Some(t);
  }

  /** A thread that does not hold the lock writes nothing, reports no write and unlocks nothing. */
  lemma QuietPc(t: Tid, pc: Pc, ok: bool, r: Response, alive: bool)
    requires !Holds(pc)
    ensures NextEvent(t, pc, ok, r) == [] && !Unlocks(pc)
    ensures var c := NextCall(t, pc, alive);
      c == [] || (c == [c[0]] && WriteOf(c[0]) == [])
  {
    hide Judge, FrameOf, SourceOf;
  }

  /** While another thread holds the lock, a step writes nothing and reports no write. */
  lemma Quiet(s: State, a: Action)
    requires Enabled(s, a) && a.Step? && LockInv(s) && s.lock != Some(a.tid) && s.lock != None
    ensures Apply(s, a).log == s.log && Apply(s, a).lock == s.lock
    ensures Pending(Apply(s, a)) == Pending(s)
    ensures WritesOf(Apply(s, a).calls) == WritesOf(s.calls)
  {
    Effect(s, a);
    var t := a.tid;
    assert Holds(PcOf(s, t)) <==> s.lock == Some(t);
    assert !Wants(PcOf(s, t));
    assert PcOf(Apply(s, a), s.lock.value) == PcOf(s, s.lock.value);
    hide WritesOf, WriteOf, Apply, PendingOf, NextPc, NextEvent, NextCall, PcOf, Enabled, Holds, Wants, Unlocks, LockInv;
    QuietPc(t, PcOf(s, t), a.ok, a.response, s.alive);
    var c := NextCall(t, PcOf(s, t), s.alive);
    if c != [] { WritesGrow(s.calls, c[0]); }
    assert s.log + [] == s.log && s.calls + [] == s.calls;
  }

  lemma KeepsCalls(s: State, a: Action)
    requires Enabled(s, a) && LockInv(s) && SettleInv(s) && CallInv(s)
    ensures CallInv(Apply(s, a))
  {
    KeepsOutcomes(s, a);
    if a.Step? {
      KeepsAccount(s, a);
    } else {
      Effect(s, a);
      BeginsQuietly(s, a);
    }
    hide SettlesIn, WritesOf, Pending, Apply, OutcomesInv, PcOf, Enabled, LockInv, SettleInv;
  }

  lemma KeepsOutcomes(s: State, a: Action)
    requires Enabled(s, a) && SettleInv(s) && OutcomesInv(s)
    ensures OutcomesInv(Apply(s, a))
  {
    Effect(s, a);
    assert ThreadInv(s.log, PcOf(s, a.tid));
    NewOutcome(s.log, a.tid, PcOf(s, a.tid), s.alive);
    hide Apply, NextCall, RightOutcome, ThreadInv, HandleInv, PcOf, Enabled, NextPc, NextEvent, BeginPc, SettleInv;
  }

  lemma NewOutcome(log: seq<Event>, t: Tid, pc: Pc, alive: bool)
    requires ThreadInv(log, pc)
    ensures var c := NextCall(t, pc, alive);
      c == [] || (c == [c[0]] && RightOutcome(c[0]) && (alive ==> c[0].alive))
  {
    hide Judge, Accepted, HandleInv, RightAnswer;
    if pc.SettleJudge? { JudgeAnswers(pc.request, alive); }
    if pc.SettleUnlock? { WrittenAnswers(pc.request, pc.ok); }
  }

  lemma JudgeAnswers(q: Request, alive: bool)
    ensures match Judge(q, alive)
      case Refuse(error) => RightAnswer(Refused(error), q, alive)
      case Nothing => RightAnswer(NothingToDo, q, alive)
      case Send => true
  {}

  lemma WrittenAnswers(q: Request, ok: bool)
    requires Accepted(q, true)
    ensures RightAnswer(Written(ok), q, true)
  {}

  lemma BeginsQuietly(s: State, a: Action)
    requires Enabled(s, a) && !a.Step? && LockInv(s)
    ensures Pending(Apply(s, a)) == Pending(s)
  {
    Effect(s, a);
    assert Holds(PcOf(s, a.tid)) <==> s.lock == Some(a.tid);
    hide Apply, PendingOf, PcOf;
  }

  lemma KeepsTail(s: State, a: Action)
    requires Enabled(s, a) && CloseInv(s) && TailInv(s)
    ensures TailInv(Apply(s, a))
  {
    KeepsEarly(s, a);
    var pc := PcOf(s, a.tid);
    Effect(s, a);
    if a.Step? { OneEvent(a.tid, pc, a.ok, a.response); GetIsEarly(a.tid, pc, a.ok, a.response); }
    hide Judge, HandleFor, Apply, PcOf, FrameOf, SourceOf, NextCall, NextPc, NextEvent, CloseInv, IsClose, IsGetWrite, Early;
  }

  lemma GetIsEarly(t: Tid, pc: Pc, ok: bool, r: Response)
    ensures var e := NextEvent(t, pc, ok, r);
      e != [] && IsGetWrite(e[0]) ==> Early(pc) && e[0].tid == t
  {}

  lemma KeepsEarly(s: State, a: Action)
    requires Enabled(s, a) && CloseInv(s) && TailIsEarly(s)
    ensures TailIsEarly(Apply(s, a))
  {
    Effect(s, a);
    hide Judge, HandleFor, Apply, PcOf, FrameOf, SourceOf, NextCall;
  }

  /** What a thread carries it has just read, and gives up only by handing it out. */
  lemma CarriedStep(t: Tid, pc: Pc, ok: bool, r: Response, closed: bool, alive: bool, at: nat)
    ensures var pc' := NextPc(pc, ok, r, closed, alive, at);
      var e := NextEvent(t, pc, ok, r);
      && (forall k :: Carries(pc', k) ==> Carries(pc, k) || (k == at && e != [] && IsRead(e[0]) && e[0].tid == t))
      && (forall k :: Carries(pc, k) ==> if pc.PollBuild? then !Carries(pc', k) else Carries(pc', k))
      && (e != [] && e[0].ReadOk? && !e[0].response.isError ==> Carries(pc', at) && e[0].tid == t)
  {
    hide Judge, FrameOf, SourceOf;
  }

  /** What a step does to the handles, as positions handed out. */
  lemma HandlesStep(s: State, a: Action)
    requires Enabled(s, a)
    ensures var s', pc := Apply(s, a), PcOf(s, a.tid);
      forall k: nat :: HandedOut(s'.handles, k) <==> HandedOut(s.handles, k) || (a.Step? && pc.PollBuild? && Carries(pc, k))
  {
    var s', pc := Apply(s, a), PcOf(s, a.tid);
    Effect(s, a);
    hide Apply, PcOf, NextPc, NextEvent, NextCall, BeginPc;
    forall k: nat
      ensures HandedOut(s'.handles, k) <==> HandedOut(s.handles, k) || (a.Step? && pc.PollBuild? && Carries(pc, k))
    {
      if a.Step? && pc.PollBuild? && pc.answer.Some? { HandsOut(s.handles, pc.answer.value, k); }
    }
  }

  lemma MoverCarries(s: State, a: Action)
    requires Enabled(s, a)
    ensures var s', pc, pc' := Apply(s, a), PcOf(s, a.tid), PcOf(Apply(s, a), a.tid);
      && |s.log| <= |s'.log| <= |s.log| + 1 && s'.log[..|s.log|] == s.log
      && (forall k: nat :: Carries(pc', k) ==>
            Carries(pc, k) || (k == |s.log| < |s'.log| && IsRead(s'.log[k]) && s'.log[k].tid == a.tid))
      && (forall k: nat :: Carries(pc, k) ==> if pc.PollBuild? then !Carries(pc', k) else Carries(pc', k))
      && (|s.log| < |s'.log| && s'.log[|s.log|].ReadOk? && !s'.log[|s.log|].response.isError ==>
            Carries(pc', |s.log|) && s'.log[|s.log|].tid == a.tid)
      && (Carries(pc, 0) || pc.PollBuild? ==> a.Step?)
  {
    Effect(s, a);
    var pc := PcOf(s, a.tid);
    if a.Step? {
      OneEvent(a.tid, pc, a.ok, a.response);
      CarriedStep(a.tid, pc, a.ok, a.response, s.closed, s.alive, |s.log|);
    }
    hide Apply, PcOf, NextPc, NextEvent, NextCall;
  }

  lemma KeepsAnswers(s: State, a: Action)
    requires Enabled(s, a) && SettleInv(s) && AnswerInv(s)
    ensures AnswerInv(Apply(s, a))
  {
    KeepsAnswered(s, a);
    KeepsCarried(s, a);
    KeepsDistinct(s, a);
  }

  lemma KeepsAnswered(s: State, a: Action)
    requires Enabled(s, a) && Answered(s)
    ensures Answered(Apply(s, a))
  {
    var s' := Apply(s, a);
    Effect(s, a);
    HandlesStep(s, a);
    MoverCarries(s, a);
    hide Apply, PcOf, NextPc, NextEvent, NextCall, BeginPc, Carries, HandedOut, Enabled;
    forall k: nat | k < |s'.log| && s'.log[k].ReadOk? && !s'.log[k].response.isError
      ensures HandedOut(s'.handles, k) || Carries(PcOf(s', s'.log[k].tid), k)
    {
      if k < |s.log| { assert s'.log[k] == s'.log[..|s.log|][k]; }
    }
  }

  lemma KeepsCarried(s: State, a: Action)
    requires Enabled(s, a) && CarriedInv(s) && HandlesInv(s)
    ensures CarriedInv(Apply(s, a))
  {
    var s' := Apply(s, a);
    Effect(s, a);
    HandlesStep(s, a);
    MoverCarries(s, a);
    NotYetHandedOut(s);
    hide Apply, PcOf, NextPc, NextEvent, NextCall, BeginPc, Enabled, HandlesInv, HandedOut;
    forall t: Tid, k: nat
      ensures CarriedRight(s', t, k)
    {
      assert CarriedRight(s, t, k) && CarriedRight(s, a.tid, k);
      if Carries(PcOf(s', t), k) && k < |s.log| { assert s'.log[k] == s'.log[..|s.log|][k]; }
    }
  }

  lemma NotYetHandedOut(s: State)
    requires HandlesInv(s)
    ensures !HandedOut(s.handles, |s.log|)
  {}

  lemma KeepsDistinct(s: State, a: Action)
    requires Enabled(s, a) && CarriedInv(s) && DistinctReads(s.handles)
    ensures DistinctReads(Apply(s, a).handles)
  {
    var pc := PcOf(s, a.tid);
    Effect(s, a);
    if a.Step? && pc.PollBuild? && pc.answer.Some? {
      assert Carries(pc, pc.answer.value.read) && CarriedRight(s, a.tid, pc.answer.value.read);
      assert !HandedOut(s.handles, pc.answer.value.read);
    }
    hide Apply, PcOf, NextPc, NextEvent, NextCall, BeginPc, CarriedInv;
  }

  lemma HandsOut(handles: seq<Handle>, h: Handle, k: nat)
    ensures HandedOut(handles + [h], k) <==> HandedOut(handles, k) || k == h.read
  {
    var all := handles + [h];
    if HandedOut(handles, k) {
      var i :| 0 <= i < |handles| && handles[i].read == k;
      assert all[i].read == k;
    }
    assert all[|handles|] == h;
  }

  lemma ActionKeepsInv(s: State, a: Action)
    requires Enabled(s, a) && Inv(s)
    ensures Inv(Apply(s, a))
  {
    assert ThreadInv(s.log, PcOf(s, a.tid));
    hide Enabled, Apply, WireInv, HolderInv, CloseInv, LateInv, HandleInv, Justified, ThreadInv, CallInv, TailInv, AnswerInv;
    KeepsWire(s, a);
    KeepsHolder(s, a);
    KeepsClose(s, a);
    KeepsLate(s, a);
    KeepsThreads(s, a);
    KeepsHandles(s, a);
    KeepsSettlements(s, a);
    KeepsCalls(s, a);
    KeepsTail(s, a);
    KeepsAnswers(s, a);
  }

  // -------------------------------------------------------------------- runs

  ghost predicate Reachable(s: State) { Reaches(Next, INITIAL, s) }

  lemma InitialIdle()
    ensures forall t: Tid :: PcOf(INITIAL, t) == Idle
    ensures INITIAL.log == [] && INITIAL.calls == [] && INITIAL.handles == [] && INITIAL.lock == None
    ensures !INITIAL.closed && INITIAL.closer == None
  {}

  lemma InitialProtocol()
    ensures WireInv(INITIAL.log) && HolderInv(INITIAL) && CloseInv(INITIAL) && LateInv(INITIAL)
  {
    InitialIdle();
    hide PcOf, INITIAL;
  }

  lemma InitialRecords()
    ensures SettleInv(INITIAL) && CallInv(INITIAL) && TailInv(INITIAL) && AnswerInv(INITIAL)
  {
    InitialIdle();
    hide PcOf, INITIAL;
  }

  lemma InitialInv()
    ensures Inv(INITIAL)
  {
    hide WireInv, HolderInv, CloseInv, LateInv, SettleInv, CallInv, TailInv, AnswerInv, INITIAL;
    InitialProtocol();
    InitialRecords();
  }

  lemma ReachableInv(s: State)
    requires Reachable(s)
    ensures Inv(s)
  {
    forall s, a | Inv(s) && Next(s, a).Some?
      ensures Inv(Next(s, a).value)
    {
      hide Inv, Enabled, Apply;
      ActionKeepsInv(s, a);
    }
    InitialInv();
    ReachableKeeps(Next, s => Inv(s), INITIAL, s);
  }

  lemma ReachableParts(s: State)
    requires Reachable(s)
    ensures WireInv(s.log) && LockInv(s) && GetHolder(s) && CloseHolder(s) && CloseInv(s) && LateInv(s)
    ensures SettleInv(s) && CallInv(s) && TailInv(s) && AnswerInv(s)
  {
    hide Reachable, WireInv, LockInv, GetHolder, CloseHolder, CloseInv, LateInv, SettleInv, CallInv, TailInv, AnswerInv;
    ReachableInv(s);
  }

  /** Every settlement on the wire is justified by a response read before it. */
  lemma SettlementsAreJustified(s: State, k: nat)
    requires Reachable(s) && k < |s.log| && s.log[k].Wrote? && s.log[k].frame.Settle?
    ensures Justified(s.log[..k], s.log[k].frame, s.log[k].source)
  {
    ReachableInv(s);
  }

  /**
   The read that answers a written Get is the very next event, by the same thread;
   until it comes that thread holds the lock.  Every read answers a Get.
   */
  lemma GetIsAnsweredNext(s: State, k: nat)
    requires Reachable(s) && k < |s.log|
    ensures IsGet(s.log[k]) && k + 1 < |s.log| ==> IsRead(s.log[k + 1]) && s.log[k + 1].tid == s.log[k].tid
    ensures IsGet(s.log[k]) && k + 1 == |s.log| ==>
      s.lock == Some(s.log[k].tid) && PcOf(s, s.log[k].tid).PollRead?
    ensures IsRead(s.log[k]) ==> k > 0 && IsGet(s.log[k - 1]) && s.log[k - 1].tid == s.log[k].tid
  {
    ReachableInv(s);
    hide LateInv, SettleInv;
    if k > 0 { assert Paired(s.log[k - 1], s.log[k - 1 + 1]); }
    if k + 1 < |s.log| { assert Paired(s.log[k], s.log[k + 1]); }
  }

  /** CloseByClient is written at most once, WritesDone comes right after it and nowhere else. */
  lemma CloseIsWrittenOnce(s: State, k: nat, l: nat)
    requires Reachable(s) && k < |s.log| && l < |s.log|
    ensures IsClose(s.log[k]) && IsClose(s.log[l]) ==> k == l
    ensures IsClose(s.log[k]) && k + 1 < |s.log| ==> s.log[k + 1] == WritesDone(s.log[k].tid)
    ensures s.log[k].WritesDone? ==> k > 0 && IsClose(s.log[k - 1])
    ensures s.log[k].WritesDone? && s.log[l].WritesDone? ==> k == l
  {
    ReachableInv(s);
    hide LateInv, SettleInv, HolderInv;
    if k > 0 { assert Paired(s.log[k - 1], s.log[k - 1 + 1]); }
    if l > 0 { assert Paired(s.log[l - 1], s.log[l - 1 + 1]); }
    if k + 1 < |s.log| { assert Paired(s.log[k], s.log[k + 1]); }
  }

  /** No Poll that begins after a Close has set closed writes anything, nor one whose channel is not valid. */
  lemma LatePollsAreSilent(s: State, k: nat)
    requires Reachable(s) && k < |s.log| && s.log[k].Wrote? && s.log[k].frame.Get?
    ensures s.log[k].source == FromPoll(true, false)
  {
    ReachableInv(s);
  }

  /**
   After WritesDone come only settlements, and at most one Get per thread, of a poll
   that began before closed was set, with its read.
   */
  lemma WhatFollowsWritesDone(s: State, j: nat, k: nat)
    requires Reachable(s) && j < k < |s.log| && s.log[j].WritesDone?
    ensures IsRead(s.log[k]) || (s.log[k].Wrote? && (s.log[k].frame.Settle? || s.log[k].frame.Get?))
    ensures IsGetWrite(s.log[k]) ==> s.log[k].source == FromPoll(true, false)
    ensures forall l :: k < l < |s.log| && IsGetWrite(s.log[k]) && IsGetWrite(s.log[l]) ==> s.log[k].tid != s.log[l].tid
  {
    CloseIsWrittenOnce(s, j, k);
    CloseIsWrittenOnce(s, j - 1, k);
    ReachableInv(s);
    hide HolderInv, SettleInv, CallInv, AnswerInv, Reachable;
    assert IsClose(s.log[j - 1]);
  }

  /**
   Every response read without error has been handed out, with its transaction and
   all its messages in order, unless the poll that read it is still under way; none
   is handed out twice.
   */
  lemma AnswersAreHandedOut(s: State, k: nat)
    requires Reachable(s) && k < |s.log| && s.log[k].ReadOk? && !s.log[k].response.isError
    ensures
      || Carries(PcOf(s, s.log[k].tid), k)
      || (exists i :: 0 <= i < |s.handles| && s.handles[i].read == k && Repeats(s.handles[i], s.log[k].response))
    ensures forall i, j :: 0 <= i < j < |s.handles| ==> s.handles[i].read != s.handles[j].read
  {
    hide Reachable, WireInv, LockInv, GetHolder, CloseHolder, CloseInv, LateInv, CallInv, TailInv, HandleInv;
    ReachableParts(s);
    if !Carries(PcOf(s, s.log[k].tid), k) {
      var i :| 0 <= i < |s.handles| && s.handles[i].read == k;
      HandleRepeats(s.log, s.handles[i]);
    }
  }

  /** A handle carries the whole of a response. */
  predicate Repeats(h: Handle, r: Response) {
    && h.transaction == r.transaction && |h.sequences| == |r.sequences|
    && forall j :: 0 <= j < |h.sequences| ==>
         h.sequences[j] == if r.sequences[j].Some? then r.sequences[j].value else 0
  }

  lemma HandleRepeats(log: seq<Event>, h: Handle)
    requires HandleInv(log, h)
    ensures 0 < h.read < |log| && log[h.read].ReadOk? && log[h.read - 1].Wrote? && log[h.read - 1].frame.Get?
    ensures Repeats(h, log[h.read].response) && h.autoAck == log[h.read - 1].frame.autoAck
  {}

  /** A 64-bit two's complement number with the bits of n. */
  predicate SameBits(x: int, n: UInt64) {
    -0x8000_0000_0000_0000 <= x < 0x8000_0000_0000_0000 && (x == n || x + 0x1_0000_0000_0000_0000 == n)
  }

  /** A settlement of one message names its sequence number, one of all names none. */
  predicate NamesSequence(frame: Frame, q: Request) {
    && frame.Settle?
    && (q.item.None? ==> frame.sequences == [])
    && (q.item.Some? ==>
          && q.item.value < |q.handle.sequences|
          && |frame.sequences| == 1 && SameBits(frame.sequences[0], q.handle.sequences[q.item.value]))
  }

  /** Request types as the protocol numbers them: by verb, even for all messages and odd for one. */
  predicate Numbered(requestType: int, q: Request) {
    && (requestType in {2, 3} <==> q.verb == Ack)
    && (requestType in {4, 5} <==> q.verb == Nack)
    && (requestType in {6, 7} <==> q.verb == ReQueue)
    && (requestType in {3, 5, 7} <==> q.item.Some?)
  }

  /**
   The settlement frames on the wire are, in the order their calls held the lock and
   once each, those of the calls the guards should let through: nothing else is
   written for them, and none of them is dropped.
   */
  lemma SettlementsAreTheAcceptedCalls(s: State)
    requires Reachable(s)
    ensures SettlesIn(s.log) == WritesOf(s.calls) + Pending(s)
    ensures s.lock == None ==> SettlesIn(s.log) == WritesOf(s.calls)
    ensures forall i :: 0 <= i < |s.calls| ==>
      (s.calls[i].outcome.Written? <==> Accepted(s.calls[i].request, s.calls[i].alive))
    ensures forall i :: 0 <= i < |s.calls| ==> RightAnswer(s.calls[i].outcome, s.calls[i].request, s.calls[i].alive)
    ensures s.alive ==> forall i :: 0 <= i < |s.calls| ==> s.calls[i].alive
  {
    hide Reachable, WireInv, LockInv, GetHolder, CloseHolder, CloseInv, LateInv, SettleInv, TailInv, AnswerInv;
    hide SettlesIn, WritesOf, Accepted, PcOf;
    ReachableParts(s);
    if s.lock == None { assert WritesOf(s.calls) + [] == WritesOf(s.calls); }
  }

  lemma {:induction false} SettlesAreLogged(log: seq<Event>, e: Event)
    requires e in SettlesIn(log)
    ensures e in log
    decreases |log|
  {
    if log != [] && log[|log| - 1] != e { SettlesAreLogged(log[..|log| - 1], e); }
  }

  lemma {:induction false} WritesAreCounted(calls: seq<Call>, i: nat)
    requires i < |calls| && calls[i].outcome.Written?
    ensures WriteOf(calls[i])[0] in WritesOf(calls)
    decreases |calls|
  {
    if i < |calls| - 1 { WritesAreCounted(calls[..|calls| - 1], i); }
  }

  predicate InSettlement(pc: Pc, q: Request) {
    (pc.SettleJudge? || pc.SettleWant? || pc.SettleWrite? || pc.SettleUnlock?) && pc.request == q
  }

  /**
   The call is in the record from position n on.  lived says whether the receiver
   lived when the call began: it lived when the call was judged only if it lived
   then, and surely if it lives now.
   */
  predicate Returned(s: State, n: nat, t: Tid, q: Request, lived: bool) {
    exists i :: n <= i < |s.calls| && IsRecord(s.calls[i], t, q, s.alive, lived)
  }

  predicate IsRecord(c: Call, t: Tid, q: Request, livesNow: bool, lived: bool) {
    c.tid == t && c.request == q && (livesNow ==> c.alive) && (c.alive ==> lived)
  }

  /** The call is under way, and past its guards only if the receiver lived when it began. */
  predicate Settling(pc: Pc, q: Request, lived: bool) {
    InSettlement(pc, q) && (pc.SettleJudge? || lived)
  }

  lemma StepReturns(s: State, a: Action, n: nat, t: Tid, q: Request, lived: bool)
    requires Enabled(s, a) && n <= |s.calls| && (s.alive ==> lived)
    requires Settling(PcOf(s, t), q, lived) || Returned(s, n, t, q, lived)
    ensures var s' := Apply(s, a);
      && |s.calls| <= |s'.calls| && (s'.alive ==> lived)
      && (Settling(PcOf(s', t), q, lived) || Returned(s', n, t, q, lived))
  {
    var s' := Apply(s, a);
    Effect(s, a);
    if Returned(s, n, t, q, lived) {
      var i :| n <= i < |s.calls| && IsRecord(s.calls[i], t, q, s.alive, lived);
      hide Apply, PcOf, NextPc, NextEvent, NextCall, BeginPc;
      assert s'.calls[i] == s.calls[i];
    } else if a.Step? && a.tid == t {
      MoverReturns(t, PcOf(s, t), a.ok, a.response, s.closed, s.alive, |s.log|, q, lived);
      hide Apply, PcOf, NextPc, NextEvent, NextCall, BeginPc;
      if |s'.calls| > |s.calls| { assert IsRecord(s'.calls[|s.calls|], t, q, s'.alive, lived); }
    }
  }

  lemma MoverReturns(t: Tid, pc: Pc, ok: bool, r: Response, closed: bool, alive: bool, at: nat, q: Request, lived: bool)
    requires Settling(pc, q, lived) && (alive ==> lived)
    ensures var c := NextCall(t, pc, alive);
      if c == [] then Settling(NextPc(pc, ok, r, closed, alive, at), q, lived)
      else c == [c[0]] && IsRecord(c[0], t, q, alive, lived)
  {
    hide FrameOf, SourceOf, HandleFor;
  }

  lemma {:induction false} RunReturns(s: State, run: seq<Action>, n: nat, t: Tid, q: Request, lived: bool)
    requires IsRun(Next, s, run) && n <= |s.calls| && (s.alive ==> lived)
    requires Settling(PcOf(s, t), q, lived) || Returned(s, n, t, q, lived)
    ensures var u := Exec(Next, s, run);
      Settling(PcOf(u, t), q, lived) || Returned(u, n, t, q, lived)
    decreases |run|
  {
    hide Apply, Enabled, PcOf, Settling, Returned;
    if run != [] {
      StepReturns(s, run[0], n, t, q, lived);
      RunReturns(Apply(s, run[0]), run[1..], n, t, q, lived);
    }
  }

  /**
   A settlement call that has returned is in the record, and its frame is on the
   wire exactly if the receiver still owned the stream, the poll had no auto-ack, the
   transaction id is not empty, a requeue names a channel, and settling all finds
   messages.  Whether the receiver was closed makes no difference.  A receiver that
   was already destroyed when the call began did not own the stream, one that lives
   after it did; only if it was destroyed during the call does the recorded alive
   tell which came first.  A call that is not sent answers with the reason.
   */
  lemma SettlementIsSentExactlyWhen(s: State, a: Action, run: seq<Action>) returns (i: nat)
    requires Reachable(s) && a.BeginSettle? && Enabled(s, a)
    requires IsRun(Next, Apply(s, a), run) && PcOf(Exec(Next, Apply(s, a), run), a.tid) == Idle
    ensures var u := Exec(Next, Apply(s, a), run);
      var q := Request(s.handles[a.handle], a.verb, a.item, a.channel, a.emptied);
      && |s.calls| <= i < |u.calls| && u.calls[i].tid == a.tid && u.calls[i].request == q
      && (!s.alive ==> !u.calls[i].outcome.Written?)
      && (u.alive ==> (u.calls[i].outcome.Written? <==> Accepted(q, true)))
      && RightAnswer(u.calls[i].outcome, q, u.calls[i].alive)
      && (u.alive ==> u.calls[i].alive) && (!s.alive ==> !u.calls[i].alive)
      && (u.calls[i].outcome.Written? ==>
            && Wrote(a.tid, FrameOf(q), SourceOf(q), u.calls[i].outcome.ok) in u.log
            && Numbered(FrameOf(q).requestType, q) && NamesSequence(FrameOf(q), q))
  {
    var s1, t := Apply(s, a), a.tid;
    var q := Request(s.handles[a.handle], a.verb, a.item, a.channel, a.emptied);
    Effect(s, a);
    assert Settling(PcOf(s1, t), q, s.alive);
    RunReturns(s1, run, |s.calls|, t, q, s.alive);
    var u := Exec(Next, s1, run);
    i :| |s.calls| <= i < |u.calls| && IsRecord(u.calls[i], t, q, u.alive, s.alive);
    Onward(s, a);
    AfterRun(s1, run);
    SettlementsAreTheAcceptedCalls(u);
    FrameIsNumbered(q);
    AcceptedNeedsLife(q, u.calls[i].alive);
    hide Apply, PcOf, Enabled, Reachable, Accepted, SettlesIn, WritesOf, Pending, FrameOf, SourceOf, Numbered, NamesSequence;
    if u.calls[i].outcome.Written? {
      WritesAreCounted(u.calls, i);
      assert WriteOf(u.calls[i])[0] in SettlesIn(u.log);
      SettlesAreLogged(u.log, WriteOf(u.calls[i])[0]);
    }
  }

  lemma FrameIsNumbered(q: Request)
    requires InRange(q)
    ensures FrameOf(q).Settle? && Numbered(FrameOf(q).requestType, q) && NamesSequence(FrameOf(q), q)
  {}

  predicate InPoll(pc: Pc, autoAck: bool) {
    && (pc.PollCheck? || pc.PollWant? || pc.PollWrite?) && pc.autoAck == autoAck
    && (pc.PollCheck? ==> pc.valid)
  }

  predicate WroteGet(log: seq<Event>, n: nat, t: Tid, autoAck: bool) {
    exists k :: n <= k < |log| && log[k].Wrote? && log[k].frame == Get(autoAck) && log[k].tid == t
  }

  lemma StepPolls(s: State, a: Action, n: nat, t: Tid, autoAck: bool)
    requires Enabled(s, a) && n <= |s.log|
    requires s.closed || InPoll(PcOf(s, t), autoAck) || WroteGet(s.log, n, t, autoAck)
    ensures var s' := Apply(s, a);
      && |s.log| <= |s'.log|
      && (s'.closed || InPoll(PcOf(s', t), autoAck) || WroteGet(s'.log, n, t, autoAck))
  {
    var s' := Apply(s, a);
    Effect(s, a);
    hide Apply, PcOf, HandleFor, Judge, FrameOf, SourceOf, NextCall;
    if WroteGet(s.log, n, t, autoAck) {
      var k :| n <= k < |s.log| && s.log[k].Wrote? && s.log[k].frame == Get(autoAck) && s.log[k].tid == t;
      assert s'.log[k] == s.log[k];
    } else if a.Step? && a.tid == t && PcOf(s, t).PollWrite? && !s.closed {
      assert s'.log[|s.log|] == Wrote(t, Get(autoAck), FromPoll(PcOf(s, t).valid, PcOf(s, t).late), a.ok);
    }
  }

  lemma {:induction false} RunPolls(s: State, run: seq<Action>, n: nat, t: Tid, autoAck: bool)
    requires IsRun(Next, s, run) && n <= |s.log|
    requires s.closed || InPoll(PcOf(s, t), autoAck) || WroteGet(s.log, n, t, autoAck)
    ensures var u := Exec(Next, s, run);
      u.closed || InPoll(PcOf(u, t), autoAck) || WroteGet(u.log, n, t, autoAck)
    decreases |run|
  {
    hide Apply, Enabled, PcOf, InPoll, WroteGet;
    if run != [] {
      StepPolls(s, run[0], n, t, autoAck);
      RunPolls(Apply(s, run[0]), run[1..], n, t, autoAck);
    }
  }

  /** A Poll of a valid channel that has returned on a receiver nobody closed has written its Get. */
  lemma OpenPollIsWritten(s: State, a: Action, run: seq<Action>)
    requires a.BeginPoll? && a.valid && Enabled(s, a) && IsRun(Next, Apply(s, a), run)
    requires var u := Exec(Next, Apply(s, a), run);
      PcOf(u, a.tid) == Idle && !u.closed
    ensures WroteGet(Exec(Next, Apply(s, a), run).log, |s.log|, a.tid, a.autoAck)
  {
    Effect(s, a);
    assert InPoll(PcOf(Apply(s, a), a.tid), a.autoAck);
    RunPolls(Apply(s, a), run, |s.log|, a.tid, a.autoAck);
    hide Apply, PcOf, Enabled, WroteGet;
  }

  predicate InClose(pc: Pc, destroy: bool) {
    (pc.CloseExchange? || pc.CloseWant? || pc.CloseWrite? || pc.CloseWritesDone? || pc.CloseUnlock?) && pc.destroy == destroy
  }

  lemma StepCloses(s: State, a: Action, t: Tid)
    requires Enabled(s, a) && (s.closed || PcOf(s, t) == CloseExchange(false))
    ensures Apply(s, a).closed || PcOf(Apply(s, a), t) == CloseExchange(false)
  {
    Effect(s, a);
  }

  lemma {:induction false} RunCloses(s: State, run: seq<Action>, t: Tid)
    requires IsRun(Next, s, run) && (s.closed || PcOf(s, t) == CloseExchange(false))
    ensures var u := Exec(Next, s, run);
      u.closed || PcOf(u, t) == CloseExchange(false)
    decreases |run|
  {
    hide Apply, Enabled, PcOf;
    if run != [] {
      StepCloses(s, run[0], t);
      RunCloses(Apply(s, run[0]), run[1..], t);
    }
  }

  /** CloseByClient and WritesDone stand together in the log, written by t. */
  predicate IsClosed(log: seq<Event>, t: Tid) {
    exists k :: 0 < k < |log| && IsClose(log[k - 1]) && log[k - 1].tid == t && log[k] == WritesDone(t)
  }

  /**
   When a Close has returned closed is set, and CloseByClient and WritesDone are on
   the wire, unless another Close flipped closed and is still on its way there.
   */
  lemma CloseTakesEffect(s: State, t: Tid, run: seq<Action>)
    requires Reachable(s) && Enabled(s, BeginClose(t)) && IsRun(Next, Apply(s, BeginClose(t)), run)
    requires PcOf(Exec(Next, Apply(s, BeginClose(t)), run), t) == Idle
    ensures var u := Exec(Next, Apply(s, BeginClose(t)), run);
      && u.closed && u.closer.Some?
      && (IsClosed(u.log, u.closer.value) || (u.closer.value != t && Closing(PcOf(u, u.closer.value))))
  {
    var s1 := Apply(s, BeginClose(t));
    Effect(s, BeginClose(t));
    RunCloses(s1, run, t);
    Onward(s, BeginClose(t));
    AfterRun(s1, run);
    var u := Exec(Next, s1, run);
    hide Apply, Enabled, Reachable, PcOf, IsRun, Exec;
    ClosedIsWritten(u);
  }

  lemma ClosedIsWritten(u: State)
    requires Reachable(u) && u.closed
    ensures u.closer.Some? && (Closing(PcOf(u, u.closer.value)) || IsClosed(u.log, u.closer.value))
  {
    hide Reachable, WireInv, LockInv, GetHolder, CloseHolder, ClosesOnce, LateInv, SettleInv, CallInv, TailInv, AnswerInv;
    ReachableParts(u);
    if !Closing(PcOf(u, u.closer.value)) {
      var k :| 0 <= k < |u.log| && u.log[k] == WritesDone(u.closer.value);
      DoneFollowsClose(u.log, k);
      assert IsClose(u.log[k - 1]) && u.log[k] == WritesDone(u.closer.value);
    }
  }

  lemma DoneFollowsClose(log: seq<Event>, k: nat)
    requires WireInv(log) && k < |log| && log[k].WritesDone?
    ensures k > 0 && IsClose(log[k - 1]) && log[k - 1].tid == log[k].tid
  {
    if k > 0 { assert Paired(log[k - 1], log[k - 1 + 1]); }
  }

  /** Where the destructor stands, and what is already done there. */
  predicate DestroyStage(pc: Pc, closed: bool, alive: bool) {
    || pc == CloseExchange(true)
    || ((InClose(pc, true) || pc == Release) && closed)
    || (UsesHandleOnly(pc) && closed && !alive)
  }

  /** Thread t destroys the receiver, or has done so; no other thread uses it. */
  ghost predicate Destroying(s: State, t: Tid) {
    && s.destroying && DestroyStage(PcOf(s, t), s.closed, s.alive)
    && forall u: Tid :: u != t ==> UsesHandleOnly(PcOf(s, u))
  }

  lemma StageGoesOn(pc: Pc, ok: bool, r: Response, closed: bool, alive: bool, at: nat)
    requires DestroyStage(pc, closed, alive)
    ensures DestroyStage(NextPc(pc, ok, r, closed, alive, at), closed || pc.CloseExchange?, alive && pc != Release)
  {
    hide Judge, HandleFor;
  }

  lemma HandleUseGoesOn(pc: Pc, ok: bool, r: Response, closed: bool, alive: bool, at: nat)
    requires UsesHandleOnly(pc)
    ensures UsesHandleOnly(NextPc(pc, ok, r, closed, alive, at)) && !pc.CloseExchange? && pc != Release
  {
    hide Judge, HandleFor;
  }

  lemma StepDestroys(s: State, a: Action, t: Tid)
    requires Enabled(s, a) && Destroying(s, t)
    ensures Destroying(Apply(s, a), t)
  {
    Effect(s, a);
    var pc := PcOf(s, a.tid);
    if a.Step? && a.tid == t {
      StageGoesOn(pc, a.ok, a.response, s.closed, s.alive, |s.log|);
    } else if a.Step? {
      HandleUseGoesOn(pc, a.ok, a.response, s.closed, s.alive, |s.log|);
    }
    hide Apply, PcOf, NextPc, NextEvent, NextCall;
  }

  lemma {:induction false} RunDestroys(s: State, run: seq<Action>, t: Tid)
    requires IsRun(Next, s, run) && Destroying(s, t)
    ensures Destroying(Exec(Next, s, run), t)
    decreases |run|
  {
    hide Apply, Enabled, Destroying;
    if run != [] {
      StepDestroys(s, run[0], t);
      RunDestroys(Apply(s, run[0]), run[1..], t);
    }
  }

  /**
   When the destructor has returned, CloseByClient and WritesDone are on the wire and
   the stream is no longer owned, so that no settlement begun from then on is written.
   */
  lemma DestroyTakesEffect(s: State, t: Tid, run: seq<Action>)
    requires Reachable(s) && Enabled(s, BeginDestroy(t)) && IsRun(Next, Apply(s, BeginDestroy(t)), run)
    requires PcOf(Exec(Next, Apply(s, BeginDestroy(t)), run), t) == Idle
    ensures var u := Exec(Next, Apply(s, BeginDestroy(t)), run);
      !u.alive && u.closer.Some? && IsClosed(u.log, u.closer.value)
  {
    hide Apply, Reachable, PcOf, IsRun, Exec;
    var s1 := Apply(s, BeginDestroy(t));
    Effect(s, BeginDestroy(t));
    RunDestroys(s1, run, t);
    Onward(s, BeginDestroy(t));
    AfterRun(s1, run);
    var u := Exec(Next, s1, run);
    assert u.closed;
    ClosedIsWritten(u);
    assert UsesHandleOnly(PcOf(u, u.closer.value));
  }

  lemma Onward(s: State, a: Action)
    requires Reachable(s) && Enabled(s, a)
    ensures Reachable(Apply(s, a))
  {
    hide Apply, Enabled, IsRun, Exec;
    ReachesNext(Next, INITIAL, s, a);
  }

  lemma AfterRun(s: State, run: seq<Action>)
    requires Reachable(s) && IsRun(Next, s, run)
    ensures Reachable(Exec(Next, s, run))
  {
    hide IsRun, Exec;
    ReachesAfter(Next, INITIAL, s, run);
  }

  /** While the lock is held its holder can move, so no thread waits for it forever. */
  lemma HolderIsNeverBlocked(s: State, t: Tid, ok: bool, r: Response)
    requires Reachable(s) && s.lock == Some(t)
    ensures Enabled(s, Step(t, ok, r))
  {
    hide Reachable, WireInv, GetHolder, CloseHolder, CloseInv, LateInv, SettleInv, CallInv, TailInv, AnswerInv;
    ReachableParts(s);
    assert Holds(PcOf(s, t));
  }

  /** Only the destructor gives up the stream: no Close does, however often it is called. */
  ghost predicate OwnedInv(s: State) {
    && (s.alive || s.destroying)
    && forall t: Tid :: InDestroy(PcOf(s, t)) ==> s.destroying
  }

  predicate InDestroy(pc: Pc) { InClose(pc, true) || pc == Release }

  lemma DestroyGoesOn(pc: Pc, ok: bool, r: Response, closed: bool, alive: bool, at: nat)
    ensures InDestroy(NextPc(pc, ok, r, closed, alive, at)) ==> InDestroy(pc)
  {
    hide Judge, HandleFor;
  }

  lemma KeepsOwned(s: State, a: Action)
    requires Enabled(s, a) && OwnedInv(s)
    ensures OwnedInv(Apply(s, a))
  {
    Effect(s, a);
    if a.Step? { DestroyGoesOn(PcOf(s, a.tid), a.ok, a.response, s.closed, s.alive, |s.log|); }
    hide Apply, PcOf, NextPc, NextEvent, NextCall, Enabled;
  }

  /** Until its destructor begins, the receiver owns the stream, closed or not. */
  lemma OwnedUntilDestroyed(s: State)
    requires Reachable(s) && !s.destroying
    ensures s.alive
  {
    forall s, a | OwnedInv(s) && Next(s, a).Some?
      ensures OwnedInv(Next(s, a).value)
    {
      hide OwnedInv, Enabled, Apply;
      KeepsOwned(s, a);
    }
    assert OwnedInv(INITIAL);
    ReachableKeeps(Next, s => OwnedInv(s), INITIAL, s);
  }

  // --------------------------------------------------------- calls can return

  /** Steps a call still needs, with three of a lock holder where it has yet to lock. */
  function PcRank(pc: Pc): nat {
    match pc
    case Idle => 0
    case PollCheck(_, _, _) => 9
    case PollWant(_, _, _) => 5
    case PollWrite(_, _, _) => 4
    case PollRead(_) => 3
    case PollUnlock(_) => 2
    case PollBuild(_) => 1
    case SettleJudge(_) => 7
    case SettleWant(_) => 3
    case SettleWrite(_) => 2
    case SettleUnlock(_, _) => 1
    case CloseExchange(_) => 9
    case CloseWant(_) => 5
    case CloseWrite(_) => 4
    case CloseWritesDone(_) => 3
    case CloseUnlock(_) => 2
    case Release => 1
  }

  /** Steps until a holder lets go of the lock. */
  function HeldRank(pc: Pc): nat {
    match pc
    case PollWrite(_, _, _) => 3
    case PollRead(_) => 2
    case PollUnlock(_) => 1
    case SettleWrite(_) => 2
    case SettleUnlock(_, _) => 1
    case CloseWrite(_) => 3
    case CloseWritesDone(_) => 2
    case CloseUnlock(_) => 1
    case _ => 0
  }

  /** Steps a call may have to wait for, with its own. */
  function Wait(s: State, t: Tid): nat {
    var pc := PcOf(s, t);
    PcRank(pc) + if Wants(pc) && s.lock.Some? then HeldRank(PcOf(s, s.lock.value)) else 0
  }

  /** A step that brings the call of t nearer to its end, whatever Write and Read return. */
  function Helpful(s: State, t: Tid, ok: bool, r: Response): Action {
    if Wants(PcOf(s, t)) && s.lock.Some? then Step(s.lock.value, ok, r) else Step(t, ok, r)
  }

  lemma HolderLetsGo(pc: Pc, ok: bool, r: Response, closed: bool, alive: bool, at: nat)
    ensures var pc' := NextPc(pc, ok, r, closed, alive, at);
      && (Holds(pc) ==> if Unlocks(pc) then HeldRank(pc) > 0 else HeldRank(pc') < HeldRank(pc))
      && (pc != Idle ==> PcRank(pc') + (if Wants(pc') then 3 else 0) < PcRank(pc))
      && (Holds(pc) ==> !Wants(pc) && !Wants(pc') && pc != Idle)
      && (Wants(pc) ==> !Wants(pc'))
  {
    hide Judge, HandleFor;
  }

  lemma HelpfulHelps(s: State, t: Tid, ok: bool, r: Response)
    requires LockInv(s) && PcOf(s, t) != Idle
    ensures var a := Helpful(s, t, ok, r);
      Enabled(s, a) && Wait(Apply(s, a), t) < Wait(s, t)
  {
    var a := Helpful(s, t, ok, r);
    if s.lock.Some? {
      assert Holds(PcOf(s, s.lock.value));
      HolderLetsGo(PcOf(s, s.lock.value), ok, r, s.closed, s.alive, |s.log|);
    }
    HolderLetsGo(PcOf(s, t), ok, r, s.closed, s.alive, |s.log|);
    assert Holds(PcOf(s, t)) <==> s.lock == Some(t);
    assert Enabled(s, a);
    Effect(s, a);
    hide Apply, Enabled, PcOf, NextPc, NextEvent, NextCall, PcRank, HeldRank, Holds;
    WaitAfter(s, t, a);
  }

  lemma WaitAfter(s: State, t: Tid, a: Action)
    requires LockInv(s) && Enabled(s, a) && a.Step? && (a.tid == t || Some(a.tid) == s.lock)
    requires a.tid != t ==> Wants(PcOf(s, t)) && Holds(PcOf(s, a.tid))
    requires a.tid == t ==> !Wants(PcOf(s, t)) || s.lock == None
    ensures Wait(Apply(s, a), t) < Wait(s, t)
  {
    Effect(s, a);
    HolderLetsGo(PcOf(s, a.tid), a.ok, a.response, s.closed, s.alive, |s.log|);
    HeldAtMost(s, t);
    HeldAtMost(Apply(s, a), t);
    hide Apply, Enabled, PcOf, NextPc, NextEvent, NextCall, PcRank, HeldRank, Holds, LockInv;
  }

  lemma HeldAtMost(s: State, t: Tid)
    ensures s.lock.Some? ==> HeldRank(PcOf(s, s.lock.value)) <= 3
  {
    hide PcOf;
  }

  lemma {:induction false} CallReturns(s: State, t: Tid, ok: bool, r: Response) returns (run: seq<Action>)
    requires Inv(s)
    ensures |run| <= Wait(s, t) && IsRun(Next, s, run) && PcOf(Exec(Next, s, run), t) == Idle
    decreases Wait(s, t)
  {
    hide Inv, Apply, Enabled, Wait, Helpful, PcOf;
    if PcOf(s, t) == Idle {
      run := [];
    } else {
      var a := Helpful(s, t, ok, r);
      LockOf(s);
      HelpfulHelps(s, t, ok, r);
      ActionKeepsInv(s, a);
      var rest := CallReturns(Apply(s, a), t, ok, r);
      RunCons(Next, s, a, rest);
      run := [a] + rest;
    }
  }

  lemma LockOf(s: State)
    requires Inv(s)
    ensures LockInv(s)
  {}

  lemma WaitBound(s: State, t: Tid)
    ensures Wait(s, t) <= 9
  {
    hide PcOf;
  }

  /**
   From every reachable state every Poll, settlement, Close and destructor can return,
   in at most nine steps of the threads, whatever Write and Read return.
   */
  lemma EveryCallCanReturn(s: State, t: Tid, ok: bool, r: Response) returns (run: seq<Action>)
    requires Reachable(s)
    ensures |run| <= 9 && IsRun(Next, s, run) && PcOf(Exec(Next, s, run), t) == Idle
  {
    hide Reachable, Inv, Wait;
    WaitBound(s, t);
    ReachableInv(s);
    run := CallReturns(s, t, ok, r);
  }

  /** Which calls a user may make: the receiver's own until it is destroyed, settlements through any handle at any time. */
  ghost predicate MayCall(s: State, a: Action) {
    match a
    case BeginPoll(_, _, _) => !s.destroying
    case BeginSettle(_, i, item, _, _, _) => i < |s.handles| && (item.Some? ==> item.value < |s.handles[i].sequences|)
    case BeginClose(_) => !s.destroying
    case BeginDestroy(_) => !s.destroying && forall u: Tid :: UsesHandleOnly(PcOf(s, u))
    case Step(_, _, _) => false
  }

  /** In every reachable state an idle thread can make any such call and have it return. */
  lemma AnyCallCanBeMade(s: State, a: Action, ok: bool, r: Response) returns (run: seq<Action>)
    requires Reachable(s) && MayCall(s, a) && PcOf(s, a.tid) == Idle
    ensures |run| <= 9 && IsRun(Next, s, [a] + run) && PcOf(Exec(Next, s, [a] + run), a.tid) == Idle
  {
    assert Enabled(s, a);
    hide Apply, Enabled, Reachable, PcOf, MayCall;
    Onward(s, a);
    run := EveryCallCanReturn(Apply(s, a), a.tid, ok, r);
    RunCons(Next, s, a, run);
  }

  // ------------------------------------------- settlement after the close

  lemma Reach(s: State, a: Action) returns (t: State)
    requires Reachable(s) && Enabled(s, a)
    ensures t == Apply(s, a) && Reachable(t)
  {
    hide Apply, Enabled, Reachable;
    Onward(s, a);
    t := Apply(s, a);
  }

  const ANSWER := Response(false, Text("t"), [Some(7)])
  const POLLED := Handle(Text("t"), false, [7], 1)

  /** One step of thread 0, with Write succeeding and Read returning ANSWER. */
  lemma Move(s: State) returns (t: State)
    requires Reachable(s) && PcOf(s, 0) != Idle
    requires Wants(PcOf(s, 0)) ==> s.lock == None
    ensures Reachable(t)
    ensures var pc := PcOf(s, 0);
      && PcOf(t, 0) == NextPc(pc, true, ANSWER, s.closed, s.alive, |s.log|)
      && t.log == s.log + NextEvent(0, pc, true, ANSWER)
      && t.lock == (if Wants(pc) then Some(0) else if Unlocks(pc) then None else s.lock)
      && t.handles == (if pc.PollBuild? && pc.answer.Some? then s.handles + [pc.answer.value] else s.handles)
      && t.closed == (s.closed || pc.CloseExchange?) && t.alive == (s.alive && pc != Release)
      && t.destroying == s.destroying
  {
    hide Reachable, NextPc, NextEvent;
    t := Reach(s, Step(0, true, ANSWER));
  }

  lemma PollBegun() returns (s: State)
    ensures Reachable(s) && PcOf(s, 0) == PollCheck(false, true, false) && s.log == [] && s.lock == None
    ensures s.handles == [] && s.alive && !s.closed && !s.destroying
  {
    s := INITIAL;
    ReachesInitial(Next, INITIAL);
    assert Reachable(s);
    hide Reachable;
    s := Reach(s, BeginPoll(0, false, true));
  }

  lemma GetWritten() returns (s: State)
    ensures Reachable(s) && PcOf(s, 0) == PollRead(false) && |s.log| == 1 && s.lock == Some(0)
    ensures s.handles == [] && s.alive && !s.closed && !s.destroying
  {
    s := PollBegun();
    hide Reachable;
    hide PcOf, Judge, HandleFor, Enabled, Apply;
    s := Move(s);
    assert PcOf(s, 0) == PollWant(false, true, false);
    s := Move(s);
    assert PcOf(s, 0) == PollWrite(false, true, false);
    s := Move(s);
  }

  lemma OnePoll() returns (s: State)
    ensures Reachable(s)
    ensures s.handles == [POLLED] && s.alive && !s.closed && !s.destroying
    ensures s.lock == None && PcOf(s, 0) == Idle
  {
    s := GetWritten();
    assert HandleFor(ANSWER, false, 1) == POLLED;
    hide Reachable, PcOf, Judge, HandleFor;
    s := Move(s);
    assert PcOf(s, 0) == PollUnlock(Some(POLLED));
    s := Move(s);
    assert PcOf(s, 0) == PollBuild(Some(POLLED));
    s := Move(s);
  }

  lemma CloseUnderWay() returns (s: State)
    ensures Reachable(s) && PcOf(s, 0) == CloseWrite(false) && s.lock == Some(0)
    ensures s.handles == [POLLED] && s.alive && s.closed
  {
    s := OnePoll();
    hide Reachable;
    s := Reach(s, BeginClose(0));
    assert PcOf(s, 0) == CloseExchange(false);
    hide PcOf, HandleFor, Judge, Enabled, Apply;
    s := Move(s);
    assert PcOf(s, 0) == CloseWant(false);
    s := Move(s);
  }

  lemma PollThenClose() returns (s: State)
    ensures Reachable(s)
    ensures s.handles == [POLLED] && s.alive && s.closed
    ensures s.lock == None && PcOf(s, 0) == Idle && s.log != [] && s.log[|s.log| - 1] == WritesDone(0)
  {
    s := CloseUnderWay();
    hide Reachable, PcOf, HandleFor, Judge;
    s := Move(s);
    assert PcOf(s, 0) == CloseWritesDone(false);
    s := Move(s);
    assert PcOf(s, 0) == CloseUnlock(false);
    s := Move(s);
  }

  const ACK := Request(POLLED, Ack, Some(0), EMPTY, false)

  lemma AckIsLetThrough() returns (s: State)
    ensures Reachable(s) && PcOf(s, 0) == SettleWant(ACK) && s.lock == None
    ensures s.log != [] && s.log[|s.log| - 1] == WritesDone(0)
  {
    s := PollThenClose();
    hide Reachable;
    s := Reach(s, BeginSettle(0, 0, Some(0), Ack, EMPTY, false));
    assert PcOf(s, 0) == SettleJudge(ACK);
    assert Judge(ACK, true) == Send;
    hide PcOf, HandleFor, Judge, FrameOf, SourceOf;
    s := Move(s);
  }

  /** Closing the receiver does not refuse settlement: a frame can follow WritesDone. */
  lemma SettlementMayFollowWritesDone() returns (s: State)
    ensures Reachable(s) && |s.log| >= 2
    ensures s.log[|s.log| - 2] == WritesDone(0)
    ensures s.log[|s.log| - 1] == Wrote(0, Settle(3, Text("t"), [7], EMPTY), FromMessage(1, 0), true)
  {
    s := AckIsLetThrough();
    assert FrameOf(ACK) == Settle(3, Text("t"), [7], EMPTY) && SourceOf(ACK) == FromMessage(1, 0);
    hide Reachable, PcOf, HandleFor, Judge, FrameOf, SourceOf;
    s := Move(s);
    s := Move(s);
  }
}
