# A verified model of the KubeMQ C++ client's protocols and algorithms

The client library is a thin layer over gRPC around a few pieces that are hard to get
right: background threads that share flags and locks with callers, a ring buffer, a
state machine with a hidden flag, capped exponential delays, closures built by a loop,
two printers whose output is parsed again, and a table-driven CRC-32 in the
burn-in tool.  This project models those pieces in Dafny and proves what they promise.

Each Dafny module follows one component.

* **Crc32, Crc32Properties.**  The lookup table and the byte-at-a-time loop are methods
  over an array.  They are proved against a register that takes in one bit at a time.  That
  register is proved to compute the frame check sequence of clause 3.2.9 of IEEE 802.3: the
  remainder of a polynomial division, defined on bit strings with no register, no table and
  no reflected constant.  Burst detection and the residue test follow.
* **MessageBuffer.**  The ring buffer is a class over an array.  Ghost fields record the
  whole history, and the class invariant ties every slot to it.  A sender may depend on
  everything it was handed before, may stop, and may throw.
* **StateMachine.**  The class, and the language of callback words over all runs.
* **ReconnectLoop, Subscription, StreamHandle, QueueDownstream.**  Four concurrent
  protocols as step systems.  A state holds every shared variable and where each thread
  stands; an action is one atomic access, one locked access, or one answer of the
  environment (what Read, Write, Subscribe or connect_fn returns, whether a callback
  throws).  A run is any sequence of enabled actions, so statements about reachable states
  and runs hold for every interleaving.  Each has an inductive invariant and a history of
  what reached the wire or the user.
* **Backoff, Retry, Chain, Uuid, ClientOptions.**  Delays and jitter, the retry loops, the
  interceptor chain, UUID text, and host:port text.
* **Runs, Wrappers.**  What the step systems share about runs, and a value that may be
  absent.

In the step systems, the fields marked as history are read by no step.

## Where the code and its documentation differ

The model follows the code.

* `include/kubemq/subscription.h:38-40` says that a subscription is done when it was
  cancelled or the server closed the stream.  A closed stream only starts resubscribing;
  nothing but Cancel sets the flag, and the report of a stream that ended for good
  (`src/client_events.cc:282-295`) is never made (`EndsOnlyWhenCancelled`,
  `EndedStreamIsNotDone`).
* `src/internal/transport/reconnect.h:30` says that Stop blocks until the background thread
  exits.  Stop returns at once, and leaves the handle joinable, when the loop had already
  finished by itself (`HandleAfterStop`, `StopLeavesFinishedRunUnjoined`).
* `src/internal/transport/state_machine.cc:106-113` lists the valid transitions without
  kIdle to kClosed, which the code allows.
* A Close on a stream handle returns without WritesDone and without waiting exactly when it
  finds done set, which the reader may have done (`CloseOfOpenStreamWaits`,
  `CloseOfDoneStreamReturns`, `CloseNeedNotJoin`).
* Closing a queue receiver does not refuse settlement; a frame can follow WritesDone
  (`SettlementMayFollowWritesDone`).
* `include/kubemq/client_options.h:40` asks for "host:port" text; an IPv6 literal without a
  port whose last group starts with a number in 1..65535 is accepted and loses that group
  to the port (`LiteralLosesItsLastGroup`).

## Model

| member | source | states |
|---|---|---|
| Crc32.StepsLinear | burnin/engine/metrics.cc:15-21 | any number of bit steps is linear over exclusive or |
| Crc32.StepsInjective | burnin/engine/metrics.cc:15-21 | two registers that step to the same register were equal, after any number of steps |
| Crc32.FeedWord | burnin/engine/metrics.cc:30-32 | taking in up to 32 bits one by one equals adding them as a word and shifting that often |
| Crc32.TableStep | burnin/engine/metrics.cc:31 | one table lookup, with the entry being eight bit steps of the low byte, equals taking in the byte one bit at a time |
| Crc32.Table.InitCrc32Table | burnin/engine/metrics.cc:11-25 | afterwards every entry k is eight bit steps of k; a table filled before is left alone |
| Crc32.Table.Compute | burnin/engine/metrics.cc:27-34 | for every byte string, whether or not the table was filled before, the result is the bit-serial CRC |
| Crc32Properties.DivisionIdentity | burnin/engine/metrics.cc:7 | the reference remainder is one: every bit string is the product of its quotient and the generator of the IEEE polynomial, plus its remainder |
| Crc32Properties.FeedIsRemainder | burnin/engine/metrics.cc:16-21 | the register, read as a polynomial, is the remainder of the bits taken in, shifted by 32, divided by the generator polynomial |
| Crc32Properties.CrcIsFrameCheckSequence | burnin/engine/metrics.cc:27-34 | the CRC of every byte string is the frame check sequence of IEEE 802.3: complement the first 32 bits, shift by 32, divide, complement the remainder |
| Crc32Properties.FeedLinear | burnin/engine/metrics.cc:27-34 | the register of an exclusive or of two starts and two bit strings is the exclusive or of the registers |
| Crc32Properties.BurstDetected | burnin/engine/metrics.cc:27-34 | two different strings of one length that agree outside 32 consecutive bits have different CRCs |
| Crc32Properties.ResidueValue | burnin/engine/metrics.cc:29-33 | the constant 0x2144DF1C is what 32 further steps make of a register of ones, complemented |
| Crc32Properties.ResidueCheck | burnin/engine/metrics.cc:27-34 | a string followed by four little-endian bytes has that constant as its CRC exactly if the four bytes are the CRC of the string |
| MessageBuffer.MessageBuffer.constructor | src/internal/transport/message_buffer.cc:9-11 | an empty buffer, of capacity one if a capacity below one is asked for |
| MessageBuffer.MessageBuffer.Push | src/internal/transport/message_buffer.cc:13-29 | the contents grow by the message at the end; a full buffer loses exactly its oldest message and says so; nothing else in the history changes |
| MessageBuffer.MessageBuffer.DrainOne | src/internal/transport/message_buffer.cc:35-46 | one turn hands over the oldest message, clears its slot and advances; a sender that throws leaves the indices alone and its leftover in the slot |
| MessageBuffer.MessageBuffer.Drain | src/internal/transport/message_buffer.cc:31-49 | the messages taken are exactly the prefix the sender accepts, up to and including the one at which it says stop; the rest stays in order; also when the sender throws |
| MessageBuffer.MessageBuffer.Discard | src/internal/transport/message_buffer.cc:51-66 | every buffered message is discarded, every slot is empty again, the indices are zero and the count is returned |
| MessageBuffer.DrainEmpties | src/internal/transport/message_buffer.h:21-23 | a sender that always asks for more is handed everything |
| MessageBuffer.MessageBuffer.HoldsMostRecent | src/internal/transport/message_buffer.cc:17-26 | the contents are the last count messages of the whole push history, except where a throwing sender altered one |
| MessageBuffer.MessageBuffer.TakenOnceInOrder | src/internal/transport/message_buffer.cc:35-46 | each drained message was taken once, at the place its push order gives it among the drained |
| MessageBuffer.MessageBuffer.Conservation | src/internal/transport/message_buffer.cc:13-66 | pushed = evicted + drained + discarded + buffered, over any history |
| StateMachine.StateMachine.Transition | src/internal/transport/state_machine.cc:14-68 | the new state and hidden flag; the callbacks invoked, in order, are the selected ones that are installed, up to and including the first that throws; an exception goes to the caller, and otherwise the result is true exactly for the eight moves; every other request changes nothing |
| StateMachine.MovesAreTheEight | src/internal/transport/state_machine.cc:105-131 | the state changes by exactly eight moves, listed, and every other request changes and selects nothing |
| StateMachine.SelectedByMove | src/internal/transport/state_machine.cc:25-57 | what each of the eight moves selects, and the hidden flag after it |
| StateMachine.OnlyReconnectingIsLost | src/internal/transport/state_machine.cc:40-51 | exceptions lose no callback but the reconnecting one, and that exactly if an installed disconnected one throws |
| StateMachine.FiredIsRestrictedWord | src/internal/transport/state_machine.cc:30-66 | with the installed callbacks left alone, and unless disconnected throws while both callbacks of an outage are installed, a run fires its selected word restricted to them |
| StateMachine.GrowSpells | src/internal/transport/state_machine.cc:14-58 | every transition keeps the word in the language and keeps the hidden flag equal to "an outage is open" |
| StateMachine.SelectedWordsAreTheLanguage | src/internal/transport/state_machine.cc:14-68 | a word is selected by some run from kIdle exactly if it is: nothing, or connected (disconnected reconnecting reconnected)* and perhaps disconnected reconnecting; then perhaps closed |
| StateMachine.LanguageIsReached | src/internal/transport/state_machine.cc:105-131 | every word of the language is selected by a run that is given |
| StateMachine.ReadyClearsFlag | src/internal/transport/state_machine.cc:32-38 | the hidden flag is clear whenever the state is kReady |
| StateMachine.ClosedIsFinal | src/internal/transport/state_machine.cc:127-128 | after kClosed no sequence of calls changes the state or selects a callback |
| ReconnectLoop.ActionKeepsInv | src/internal/transport/reconnect.cc:18-87 | every step of Start, Stop and Run keeps the invariant |
| ReconnectLoop.AtMostOneBodyLives | src/internal/transport/reconnect.cc:18-27 | in every interleaving at most one body of Run is alive |
| ReconnectLoop.StartJoinIsSafe | src/internal/transport/reconnect.cc:22-26 | the body Start joins while holding the mutex has no lock acquisition left, and no joinable handle is assigned over |
| ReconnectLoop.NoDeadlock | src/internal/transport/reconnect.cc:18-39 | while the controller is inside Start or Stop, some thread can move, without a wait timing out or waking for no reason |
| ReconnectLoop.StartTakesEffect | src/internal/transport/reconnect.cc:18-27 | a Start begun while the loop is not running has spawned a new body when it returns |
| ReconnectLoop.StopTakesEffect | src/internal/transport/reconnect.cc:29-39 | when a Stop has returned, and until the next Start, the loop is not running |
| ReconnectLoop.StopNeedsNoTimeout | src/internal/transport/reconnect.cc:34-38 | no wakeup is lost: a Stop that is waiting can return after at most nine steps of the body, none of them a timed-out wait or a wakeup without a notification |
| ReconnectLoop.StartAndStopCanReturn | src/internal/transport/reconnect.cc:18-39 | from every reachable state the Start or Stop under way can return, with no wait timing out or waking unnotified |
| ReconnectLoop.AnyCallCanBeMade | src/internal/transport/reconnect.cc:18-39 | in every reachable state an idle controller can make a Start or a Stop, and have it return |
| ReconnectLoop.NewBodyCalls | src/internal/transport/reconnect.cc:57-67 | a new body that nobody stops begins its first connect_fn call, whatever max_attempts is |
| ReconnectLoop.AttemptsAreLimited | src/internal/transport/reconnect.cc:60-74 | a body makes at most max_attempts calls if that is positive, and all but its last call failed |
| ReconnectLoop.LoopIsLeftOnlyFor | src/internal/transport/reconnect.cc:60-81 | a body leaves its loop only when its last call succeeded, its attempts are used up, or a Stop still in progress asked it to; a request made to an earlier body is forgotten by Start |
| ReconnectLoop.WaitsFollowFailures | src/internal/transport/reconnect.cc:66-80 | the completed waits of a body are those of its failed calls, in order, the k-th computed for attempt k, and each is over before the next call; every wait the body went on after had run out, and one cut short is its last, with a request to stop |
| ReconnectLoop.WaitLastsUntilTimeout | src/internal/transport/reconnect.cc:76-80 | in every run, a body that failed to connect stays in its wait and calls nothing until the wait times out or a Stop begins, whatever wakes it |
| ReconnectLoop.TimeoutRetries | src/internal/transport/reconnect.cc:60-80 | a wait nobody interrupts ends when it times out, and the next call begins unless the attempts are used up |
| ReconnectLoop.StopIsPrompt | src/internal/transport/reconnect.cc:29-39 | once stop_requested is set and until the next Start, at most one connect_fn call begins and the body takes at most nine more steps |
| ReconnectLoop.NoCallsAfterStop | src/internal/transport/reconnect.cc:29-39 | after Stop has returned no connect_fn call begins before the next Start |
| ReconnectLoop.HandleAfterStop | src/internal/transport/reconnect.cc:32-38 | after Stop the handle is joinable exactly if Stop found running clear and a handle present; if it found running set the body has ended |
| ReconnectLoop.StopLeavesFinishedRunUnjoined | src/internal/transport/reconnect.cc:32-33 | a run in which Stop returns and leaves the handle of a finished body joinable |
| Backoff.JitterReachesItsRange | src/internal/types/jitter.cc:9-32 | jitter can turn a delay into exactly the values of its range, for every mode |
| Backoff.DelayWithinCap | src/internal/transport/reconnect.cc:89-96 | with any jitter a delay lies between zero and max_delay |
| Backoff.JitterSpreadsTheDelay | src/internal/transport/reconnect.cc:45-55 | the delays a policy can give for an attempt are exactly the jitter range of its delay without jitter |
| Backoff.DelayIsWholePart | src/internal/transport/reconnect.cc:89-96 | without jitter the delay is initial * multiplier^attempt, capped, without its fraction, for every policy |
| Backoff.DelayMonotone | src/internal/transport/reconnect.cc:45-55 | without jitter and with a multiplier of at least one, delays do not shrink with the attempt |
| Backoff.IteratedEqualsClosedForm | src/client_events.cc:255-276 | the repeated b := min(b * factor, cap) equals the closed form for every failure count exactly if the first wait is within the cap |
| Backoff.ResubscribeWaitIsDefaultDelay | src/client_events.cc:256-275 | the resubscribe wait after k failures is the delay of the default reconnection policy without jitter |
| Retry.RetryUnary | src/internal/middleware/retry.cc:38-65 | makes between 1 and max(0, max_retries)+1 calls, returns the answer of the last, and sleeps the policy's delay before each call but the first; repeats exactly after kTransient, kThrottling, and for idempotent operations kTimeout, until the retries are used up |
| Retry.RetryUnaryOr | src/internal/middleware/retry.cc:67-96 | the same for operations that return a value or an error |
| Retry.MakesUnique | src/internal/middleware/retry.cc:45-62 | what the contracts say about the number of calls determines it |
| Retry.RetriesAgree | src/internal/middleware/retry.cc:38-96 | on the same answers both forms make the same number of calls and return the same status, even for an error that carries kOk |
| Retry.TotalSleepBounded | src/internal/middleware/retry.cc:52-57 | the total sleep is at most (calls - 1) * max_backoff |
| Retry.TotalSleepWhenDoubling | src/internal/middleware/retry.cc:17-24 | for multiplier 2, no jitter and no wait above the cap the total is exactly initial * (2^(calls-1) - 1) |
| Chain.RunChain | src/internal/middleware/chain.cc:7-30 | the chain the backwards loop builds behaves as the right fold, for every list of interceptors |
| Chain.FoldConcat | src/internal/middleware/chain.h:18-19 | the chain of xs followed by ys around an operation is the chain of xs around the chain of ys |
| Chain.ChainNests | src/internal/middleware/chain.h:12-19 | interceptors that call next once run their first parts in order, the operation once, and their second parts in reverse |
| Chain.EventsNest | src/internal/middleware/chain.h:12-19 | the events of n logging interceptors are enter 1..n, the operation's, exit n..1 |
| Uuid.PrintInto | src/uuid.cc:23-27 | text that fits is stored whole and NUL-terminated; longer text is cut to the buffer |
| Uuid.FromBuffer | src/uuid.cc:28 | the string is the stored text up to the NUL |
| Uuid.GenerateUUID | src/uuid.cc:11-29 | the text is the format of the two masked words; the 37 characters of the buffer always suffice |
| Uuid.ParseFormat | src/uuid.cc:24-27 | the text of any two words has the form 8-4-4-4-12 and parses back to the two words |
| Uuid.FormatParse | src/uuid.cc:24-27 | any text of that form is printed back from the words it parses to |
| Uuid.GeneratedForm | src/uuid.cc:18-21 | a generated text has that form, version digit 4 and a variant digit among 8, 9, a, b |
| Uuid.FreeBitsSurvive | src/uuid.cc:18-28 | two draws give the same text exactly if they agree on the 122 bits that are not fixed |
| Subscription.ActionKeepsInv | src/client_events.cc:222-296 | every step of the reader thread and of Cancel keeps the invariant |
| Subscription.EndsOnlyWhenCancelled | src/client_events.cc:226-295 | done is set exactly when a Cancel was begun; the thread has exited only then; the report of a stream that ended for good is never made |
| Subscription.DeliversExactlyWhatWasRead | src/client_commands.cc:144-169 | over any number of reconnections the callbacks invoked are the messages of all streams, for commands those of Command type, once each and in order, whichever of them throw; on_error hears once of each that threw, with its text if it has one |
| Subscription.ReadsOnUntilTheEnd | src/client_events.cc:229-246 | in every run, a reader in its read loop goes on reading the same stream until Read returns false, after callbacks that return or throw, requests passed over, and a Cancel |
| Subscription.CancelReachesReader | src/internal/subscription_impl.h:33-38 | a reader still in its read loop after a Cancel is reading a stream whose context was cancelled |
| Subscription.WaitsFollowClosedForm | src/client_events.cc:256-275 | in every reachable state the waits of the current outage follow the closed form, starting again at one second |
| Subscription.AtMostOneSubscribeAfterDone | src/client_events.cc:260-267 | once done is set at most one more Subscribe call begins, and only if the reader had passed its last check |
| Subscription.StreamsOpenedAfterDoneAreNotRead | src/client_events.cc:226-271 | nothing is ever read from a stream opened after done was set |
| Subscription.ReaderExitsAfterCancel | src/client_events.cc:226-296 | once done is set the reader needs at most seven steps to exit, and two for each message Read still returns |
| Subscription.AfterCancel | src/internal/subscription_impl.h:33-46 | the three facts above together, from every reachable state with done set and for every continuation; and unless it has exited the reader can take its next step |
| Subscription.CancelCanEnd | src/internal/subscription_impl.h:33-46 | in every reachable state a Cancel can be made, and the reader can then exit in at most seven steps |
| Subscription.EndLeadsToSubscribe | src/client_events.cc:248-267 | unless a Cancel comes, the end of a stream is followed by a Subscribe after a wait of one second |
| Subscription.SuccessReadsTheNewStream | src/client_events.cc:266-273 | unless a Cancel comes, a Subscribe that succeeds is followed by reading the new stream |
| Subscription.FailureIsTriedAgain | src/client_events.cc:260-276 | unless a Cancel comes, a Subscribe that fails is tried again after one doubled wait |
| Subscription.EndedStreamIsNotDone | src/client_events.cc:248-261 | a run in which the server has ended the stream and done is clear |
| StreamHandle.ActionKeepsInv | src/client_events.cc:38-68 | every step of Send, Close, Wait and the reader keeps the invariant |
| StreamHandle.NothingFollowsWritesDone | src/client_events.cc:38-60 | in every interleaving WritesDone is the last thing on the wire, and comes at most once |
| StreamHandle.WritesDoneIsTheFlippingClose | src/client_events.cc:50-58 | WritesDone by a thread is on the wire exactly if its Close flipped done and has got past that step |
| StreamHandle.WireMatchesSends | src/client_events.cc:38-47 | the writes on the wire are the Sends that were not refused, in the order they held the lock, each with its result |
| StreamHandle.LateSendsAreRefused | src/client_events.cc:39-42 | a Send begun after done was set fails and writes nothing; a refused Send means that done is set |
| StreamHandle.SendsAfterCloseAreLate | src/client_events.cc:50-60 | every Send begun after any Close has released the lock is such a Send |
| StreamHandle.HolderIsNeverBlocked | src/client_events.cc:38-60 | at most one call holds the write lock, and it can always move |
| StreamHandle.ReaderStopsForACause | src/internal/stream_handle_impl.h:31-52 | done is set only by a Close or after a Read returned false; a reader that has exited told on_error once if the final status was not OK, and not at all if it was |
| StreamHandle.ReadsOnUntilTheEnd | src/internal/stream_handle_impl.h:34-38 | in every run, the reader reads on until a Read returns false, whatever the callers do |
| StreamHandle.EveryCallIsRecorded | src/client_events.cc:38-68 | in every run, a Send, Close or Wait that has returned is in the record the other statements are about |
| StreamHandle.EveryCallCanReturn | src/client_events.cc:38-68 | from every reachable state every Send, Close and Wait can return, in at most eleven steps once Read returns false, and a join in at most four |
| StreamHandle.AnyCallCanBeMade | src/client_events.cc:25-68 | in every reachable state an idle thread can make any Send, Close or Wait, and have it return and be recorded |
| StreamHandle.FlippingCloseJoins | src/internal/stream_handle_impl.h:54-60 | for every Close that flipped done and is past its join, the reader has exited and its WritesDone is on the wire |
| StreamHandle.WaitJoins | src/client_events.cc:66-68 | in every run, when a Wait has returned the reader has exited |
| StreamHandle.CloseOfOpenStreamWaits | src/client_events.cc:53-59 | in every run, a Close that finds done clear has written WritesDone and the reader has exited when it returns |
| StreamHandle.CloseOfDoneStreamReturns | src/client_events.cc:53-54 | a Close that finds done set returns after two more steps of its own, whatever the reader does, and writes nothing |
| StreamHandle.CloseNeedNotJoin | src/client_events.cc:53-54 | a run in which Close returns without WritesDone while the reader has not exited |
| QueueDownstream.ActionKeepsInv | src/client_queues_stream.cc:158-245 | every step of Poll, Close, the destructor and the settlements keeps the invariant |
| QueueDownstream.SettlementIsSentExactlyWhen | src/internal/queue_stream_impl.h:94-130 | in every run, a settlement call that has returned is on record, and its frame, with the request type of its verb and the sequence number it is for, is on the wire exactly if the receiver owned the stream, the poll had no auto-ack, the transaction id is not empty, a requeue names a channel, and a settle-all has messages; a call that is not sent answers with the first reason; closing makes no difference; a receiver destroyed before the call began did not own the stream, and one that lives after it did |
| QueueDownstream.SettlementsAreTheAcceptedCalls | src/internal/queue_stream_impl.h:152-190 | the settlement frames on the wire are, in the order of the lock and once each, those of the calls that meet these conditions; while the receiver lives every call so far was judged while it lived |
| QueueDownstream.SettlementsAreJustified | src/internal/queue_stream_impl.h:94-130 | every settlement on the wire carries the non-empty transaction id, and for one message the sequence, of a response read earlier without auto-ack; its request type says which it is; it carries a channel exactly if it requeues |
| QueueDownstream.GetIsAnsweredNext | src/client_queues_stream.cc:183-197 | the next event after a written Get is the read that answers it, by the same thread, and every read answers a Get |
| QueueDownstream.AnswersAreHandedOut | src/client_queues_stream.cc:199-229 | every response read without error has been handed to its caller, with its transaction id and all its messages in order, unless the poll that read it is still under way; none is handed out twice |
| QueueDownstream.OpenPollIsWritten | src/client_queues_stream.cc:158-189 | in every run, a Poll of a valid channel that has returned on a receiver nobody closed has written its Get |
| QueueDownstream.CloseIsWrittenOnce | src/client_queues_stream.cc:232-245 | CloseByClient is written at most once; WritesDone comes right after it, by the same thread, and nowhere else |
| QueueDownstream.CloseTakesEffect | src/client_queues_stream.cc:232-245 | in every run, when a Close has returned closed is set, and CloseByClient and WritesDone are on the wire unless another Close is still on its way to write them |
| QueueDownstream.DestroyTakesEffect | src/client_queues_stream.cc:154-156 | in every run, when the destructor has returned CloseByClient and WritesDone are on the wire and the stream is no longer owned |
| QueueDownstream.OwnedUntilDestroyed | src/client_queues_stream.cc:232-245 | the stream is owned until the destructor begins, however often and by whomever Close is called |
| QueueDownstream.LatePollsAreSilent | src/client_queues_stream.cc:158-170 | a Poll begun after closed was set, or with a channel that is not valid, writes nothing |
| QueueDownstream.WhatFollowsWritesDone | src/client_queues_stream.cc:232-245 | after WritesDone come only settlements, and at most one Get per thread, of a poll begun before closed was set, with its read |
| QueueDownstream.HolderIsNeverBlocked | src/client_queues_stream.cc:184-197 | the thread that holds the stream mutex can always move |
| QueueDownstream.EveryCallCanReturn | src/client_queues_stream.cc:158-245 | from every reachable state every Poll, settlement, Close and destructor can return in at most nine steps, whatever Write and Read return |
| QueueDownstream.AnyCallCanBeMade | src/client_queues_stream.cc:90-245 | in every reachable state an idle thread can poll, close or destroy a receiver not yet being destroyed, and settle through any handle, and have the call return |
| QueueDownstream.SettlementMayFollowWritesDone | src/internal/queue_stream_impl.h:94-130 | a run in which an acknowledgement is written after WritesDone |
| ClientOptions.RFind | src/client_options.cc:19 | the position is the last occurrence of the character, and there is none exactly if the character does not occur |
| ClientOptions.StoIReads | src/client_options.cc:23 | however a text splits into white space, sign, digits and a tail, its number is the signed value of those digits, or out of range |
| ClientOptions.StoIRefuses | src/client_options.cc:22-26 | a text is no number exactly if it has no such split |
| ClientOptions.TargetIsReadBack | src/client_options.cc:18-31 | set_address of host + ":" + to_string(port) restores any host, colons included, and any int as port |
| ClientOptions.AddressIsTheTarget | src/internal/transport/grpc_transport.cc:30 | the target built from a parsed address is the address itself exactly if a colon is followed by a number as to_string prints it |
| ClientOptions.TextIsPortOrZero | src/client_options.cc:19-26 | text after the last colon is the port if it can be read as an int, and makes the port 0 if it cannot |
| ClientOptions.ServiceNameIsNoPort | src/client_options.cc:22-26 | "localhost:http" gives port 0, which the checks refuse |
| ClientOptions.UsableExactlyWhen | src/client_options.cc:175-187 | an address passes the host and port checks exactly if a non-empty host is followed by its last colon and text that starts, after white space, with a number in 1..65535 |
| ClientOptions.BareHostIsKept | src/client_options.cc:18-31 | a host given without a port is kept whole exactly if it has no colon, or its last colon is its last character |
| ClientOptions.LiteralLosesItsLastGroup | src/client_options.cc:18-31 | "fe80::1" becomes host "fe80:" and port 1, and passes the checks |
| ClientOptions.ClientOptions.SetHostAndPort | src/client_options.cc:13-16 | host and port are stored unchanged |
| ClientOptions.ClientOptions.SetAddress | src/client_options.cc:18-31 | the new host and port are those the address parses to, and the channel target equals the address under the condition above |
| ClientOptions.ClientOptions.Validate | src/client_options.cc:175-213 | accepts exactly the options in range; a refusal names the first field out of range, in the order host, port, buffer, message sizes, timeout, callbacks, retries |

## Left out

- gRPC channels, contexts, TLS, authentication metadata and keepalive: only what Read, Write, Finish, Subscribe and connect_fn return is kept, as inputs of the steps.
- Field-by-field copying between protocol buffers, JSON and library types, builders, status strings: one-branch facts.
- The event-store, query and queue-upstream threads: the same protocols as StreamHandle and Subscription, modelled once; the result callbacks of the event-store and upstream readers are not modelled.
- Client::PollQueue: one poll on a receiver of its own, which lives as long as the response; an instance of QueueDownstream.
- The burn-in engine apart from its CRC, the HTTP handlers and the examples.
- The memory order of atomics, and the unsynchronised exchange of the context pointer between the reader and Cancel: atomic accesses and locked regions are single steps.
- The mutexes of the message buffer and the state machine: each of their methods is one step.
- SetOnError, and changes of on_error while a reader runs; for a stream handle on_error is taken to be set.
- The text of error statuses, apart from which error is reported.
- WaitForState and WaitForStateFor of the state machine.
- AtMostOneBodyLives: for one controller thread, and a connect_fn that calls neither Start nor Stop; with several controllers the handle is joined outside the lock and the statement is not claimed.
- NoDeadlock: a connect_fn call is taken to return, and a callback of the other protocols likewise.
- EveryCallCanReturn: says that the steps to the end exist and are never blocked; that threads are scheduled, and that a closed stream makes Read return false, is the environment's part.
- SelectedWordsAreTheLanguage: is about the order in which transitions select callbacks under the lock; two threads that transition at once may invoke them, outside the lock, in another order. Runs start in kIdle, the default initial state.
- SettlementIsSentExactlyWhen: for a receiver destroyed while the call is under way, whether it still owned the stream is read from the call's record, which says what the call found.
- DelayWithinCap: for delays and multipliers that are not negative, and with exact real powers; floating-point rounding is not modelled, and neither is it in the other statements about delays.
- JitterReachesItsRange: the generator is a parameter, and nothing is said about how likely a value is.
- RetryUnary: the operation is a function of the number of calls made before, and the random draws are parameters; time spent in calls is not modelled.
- RunChain: stands for BuildChain and RunChain together; RunChainOr is the same loop for another result type. An interceptor is a function of the next operation and the world it acts on, so one that throws is not modelled.
- GenerateUUID: the two random words are parameters, and uniqueness of the text rests on the generator.
- StoIReads: with the white space of the C locale.
- BurstDetected: for strings of equal length; strings that differ outside one window of 32 bits can share a CRC.
- The step systems are datatypes with one function per step, since Dafny methods run alone; locks, waits and joins appear as the steps they enable.
