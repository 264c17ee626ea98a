/**
 The ring buffer that holds messages while the connection is down.

 The class keeps the array and the three indices of the original.  Ghost
 fields record the whole history: every message ever pushed, what became of
 each, and what the sender was handed.  Valid ties the array to that history.
 */
module MessageBuffer {

  /** A serialized message; a cleared slot holds the empty one. */
  datatype Message = Message(bytes: string)

  const EMPTY := Message("")

  datatype Fate = Held | Evicted | Drained | Discarded

  /**
   What a sender callback does with a message: take it and ask for the next,
   take it and stop, or throw, leaving some text in the slot it was handed.
   */
  datatype SenderResult = Continue | Stop | Threw(leftover: Message)

  /** A sender may depend on what it has been handed before in the same call. */
  type Sender = (seq<Message>, Message) -> SenderResult

  // ------------------------------------------------------- history functions

  /** The items whose fate is f, in order. */
  ghost function Select(items: seq<Message>, fates: seq<Fate>, f: Fate): seq<Message>
    requires |items| == |fates|
  {
    if items == [] then []
    else
      var n := |items| - 1;
      Select(items[..n], fates[..n], f) + if fates[n] == f then [items[n]] else []
  }

  ghost function Count(fates: seq<Fate>, f: Fate): nat
  {
    if fates == [] then 0
    else Count(fates[..|fates| - 1], f) + if fates[|fates| - 1] == f then 1 else 0
  }

  /** Every message has exactly one fate. */
  lemma {:induction false} CountsCover(fates: seq<Fate>)
    ensures |fates| == Count(fates, Held) + Count(fates, Evicted) + Count(fates, Drained) + Count(fates, Discarded)
    decreases |fates|
  {
    if fates != [] { CountsCover(fates[..|fates| - 1]); }
  }

  lemma {:induction false} SelectLength(items: seq<Message>, fates: seq<Fate>, f: Fate)
    requires |items| == |fates|
    ensures |Select(items, fates, f)| == Count(fates, f)
    decreases |items|
  {
    if items != [] { SelectLength(items[..|items| - 1], fates[..|items| - 1], f); }
  }

  /** Selection looks only at the items with the fate asked for. */
  lemma {:induction false} SelectFrame(items: seq<Message>, fates: seq<Fate>, items': seq<Message>, fates': seq<Fate>, f: Fate)
    requires |items| == |fates| == |items'| == |fates'|
    requires forall i :: 0 <= i < |items| ==> (fates[i] == f) == (fates'[i] == f)
    requires forall i :: 0 <= i < |items| && fates[i] == f ==> items[i] == items'[i]
    ensures Select(items, fates, f) == Select(items', fates', f)
    ensures Count(fates, f) == Count(fates', f)
    decreases |items|
  {
    if items != [] {
      var n := |items| - 1;
      SelectFrame(items[..n], fates[..n], items'[..n], fates'[..n], f);
    }
  }

  /** Giving fate f to an item that follows all others of that fate appends it. */
  lemma {:induction false} SelectAppends(items: seq<Message>, fates: seq<Fate>, k: nat, f: Fate)
    requires |items| == |fates| && k < |items|
    requires forall i :: k <= i < |items| ==> fates[i] != f
    ensures Select(items, fates[k := f], f) == Select(items, fates, f) + [items[k]]
    ensures Count(fates[k := f], f) == Count(fates, f) + 1
    decreases |items|
  {
    var n := |items| - 1;
    var fates' := fates[k := f];
    if k < n {
      SelectAppends(items[..n], fates[..n], k, f);
      assert fates'[..n] == fates[..n][k := f];
    } else {
      assert fates'[..n] == fates[..n];
    }
  }

  /** A selected item sits behind exactly the earlier items of its fate. */
  lemma {:induction false} SelectAt(items: seq<Message>, fates: seq<Fate>, f: Fate, i: nat)
    requires |items| == |fates| && i < |items| && fates[i] == f
    ensures Count(fates[..i], f) < |Select(items, fates, f)|
    ensures Select(items, fates, f)[Count(fates[..i], f)] == items[i]
    decreases |items|
  {
    var n := |items| - 1;
    SelectLength(items[..n], fates[..n], f);
    if i < n {
      SelectAt(items[..n], fates[..n], f, i);
      assert fates[..n][..i] == fates[..i];
    }
  }

  /** Exactly the last n messages are still held. */
  ghost predicate HeldSuffix(fates: seq<Fate>, n: int) {
    0 <= n <= |fates| && forall i :: 0 <= i < |fates| ==> (fates[i] == Held <==> |fates| - n <= i)
  }

  lemma {:induction false} HeldCount(fates: seq<Fate>, n: nat)
    requires HeldSuffix(fates, n)
    ensures Count(fates, Held) == n
    decreases |fates|
  {
    if fates != [] {
      HeldCount(fates[..|fates| - 1], if n > 0 then n - 1 else 0);
    }
  }

  /** How many messages of queue a sender takes, having been handed some already. */
  function DrainCount(sender: Sender, handed: seq<Message>, queue: seq<Message>): (n: nat)
    ensures n <= |queue|
    decreases |queue|
  {
    if queue == [] then 0
    else match sender(handed, queue[0])
      case Continue => 1 + DrainCount(sender, handed + [queue[0]], queue[1..])
      case Stop => 1
      case Threw(_) => 0
  }

  /** Whether that drain ends by an exception. */
  predicate DrainThrows(sender: Sender, handed: seq<Message>, queue: seq<Message>)
    decreases |queue|
  {
    queue != [] &&
    match sender(handed, queue[0])
    case Continue => DrainThrows(sender, handed + [queue[0]], queue[1..])
    case Stop => false
    case Threw(_) => true
  }

  lemma DrainTurn(sender: Sender, handed: seq<Message>, queue: seq<Message>)
    requires queue != []
    ensures var more := handed + [queue[0]];
      match sender(handed, queue[0])
      case Continue =>
        && DrainCount(sender, handed, queue) == 1 + DrainCount(sender, more, queue[1..])
        && DrainThrows(sender, handed, queue) == DrainThrows(sender, more, queue[1..])
      case Stop => DrainCount(sender, handed, queue) == 1 && !DrainThrows(sender, handed, queue)
      case Threw(_) => DrainCount(sender, handed, queue) == 0 && DrainThrows(sender, handed, queue)
  {}

  lemma DrainNothing(sender: Sender, handed: seq<Message>)
    ensures DrainCount(sender, handed, []) == 0 && !DrainThrows(sender, handed, [])
  {}

  lemma Shift(x: seq<Message>, m: Message, y: seq<Message>)
    requires y != [] && y[0] == m
    ensures x + y == (x + [m]) + y[1..]
  {}

  lemma SplitAt(all: seq<Message>, x: seq<Message>, y: seq<Message>)
    requires all == x + y
    ensures all[..|x|] == x && all[|x|..] == y
    ensures y != [] ==> all[|x| + 1..] == y[1..]
  {}

  /** A drain that neither throws nor is told to stop empties the queue. */
  lemma {:induction false} DrainEmpties(sender: Sender, handed: seq<Message>, queue: seq<Message>)
    requires forall i :: 0 <= i < |queue| ==> sender(handed + queue[..i], queue[i]).Continue?
    ensures DrainCount(sender, handed, queue) == |queue| && !DrainThrows(sender, handed, queue)
    decreases |queue|
  {
    if queue != [] {
      assert handed + queue[..0] == handed;
      assert sender(handed + queue[..0], queue[0]).Continue?;
      forall i | 0 <= i < |queue| - 1
        ensures sender((handed + [queue[0]]) + queue[1..][..i], queue[1..][i]).Continue?
      {
        assert (handed + [queue[0]]) + queue[1..][..i] == handed + queue[..i + 1];
      }
      DrainEmpties(sender, handed + [queue[0]], queue[1..]);
    }
  }

  /** Changing the fate of the oldest held message touches only that fate's record. */
  lemma RecordFate(items: seq<Message>, fates: seq<Fate>, k: nat, f: Fate)
    requires |items| == |fates| && k < |items| && f != Held
    requires forall i :: k <= i < |items| ==> fates[i] == Held
    ensures Select(items, fates[k := f], f) == Select(items, fates, f) + [items[k]]
    ensures Count(fates[k := f], f) == Count(fates, f) + 1
    ensures forall g :: g != f && g != Held ==>
      Select(items, fates[k := f], g) == Select(items, fates, g) && Count(fates[k := f], g) == Count(fates, g)
  {
    SelectAppends(items, fates, k, f);
    forall g | g != f && g != Held
      ensures Select(items, fates[k := f], g) == Select(items, fates, g)
      ensures Count(fates[k := f], g) == Count(fates, g)
    {
      SelectFrame(items, fates, items, fates[k := f], g);
    }
  }

  /** Everything that ever happened to a buffer. */
  datatype Log = Log(
    pushed: seq<Message>,   // every message pushed, in order
    current: seq<Message>,  // the same messages as they are now
    spoiled: set<int>,     // which of them a throwing sender may have altered
    fates: seq<Fate>,      // what became of each
    sent: seq<Message>      // what senders took, in the order they took it
  ) {
    /** The history of a buffer that now holds count messages. */
    ghost predicate Valid(count: int)
      ensures Valid(count) ==> |current| == |fates| == |pushed| && 0 <= count <= |pushed|
    {
      && |current| == |fates| == |pushed|
      && HeldSuffix(fates, count)
      && (forall i :: i in spoiled ==> 0 <= i < |pushed|)
      && (forall i :: 0 <= i < |pushed| && i !in spoiled ==> current[i] == pushed[i])
      && sent == Select(current, fates, Drained)
    }

    ghost function Total(f: Fate): nat { Count(fates, f) }

    ghost function Push(message: Message): Log {
      this.(pushed := pushed + [message], current := current + [message], fates := fates + [Held])
    }

    /** The oldest of count held messages meets fate f. */
    ghost function Settle(count: int, f: Fate): Log
      requires Valid(count) && count > 0
    {
      var k := |fates| - count;
      this.(fates := fates[k := f], sent := if f == Drained then sent + [current[k]] else sent)
    }

    /** A sender threw on the oldest of count held messages. */
    ghost function Spoil(count: int, leftover: Message): Log
      requires Valid(count) && count > 0
    {
      var k := |fates| - count;
      this.(current := current[k := leftover], spoiled := spoiled + {k})
    }
  }

  lemma PushKeeps(log: Log, count: int, message: Message)
    requires log.Valid(count)
    ensures log.Push(message).Valid(count + 1)
    ensures log.Push(message).pushed == log.pushed + [message]
    ensures log.Push(message).current == log.current + [message]
    ensures log.Push(message).spoiled == log.spoiled && log.Push(message).sent == log.sent
    ensures forall f :: f != Held ==> log.Push(message).Total(f) == log.Total(f)
  {
    assert (log.fates + [Held])[..|log.fates|] == log.fates;
    assert (log.current + [message])[..|log.fates|] == log.current;
  }

  lemma SettleKeeps(log: Log, count: int, f: Fate)
    requires log.Valid(count) && count > 0 && f != Held
    ensures log.Settle(count, f).Valid(count - 1)
    ensures log.Settle(count, f).pushed == log.pushed
    ensures log.Settle(count, f).current == log.current
    ensures log.Settle(count, f).spoiled == log.spoiled
    ensures log.Settle(count, f).sent
         == if f == Drained then log.sent + [log.current[|log.current| - count]] else log.sent
    ensures forall g :: g != Held ==>
      log.Settle(count, f).Total(g) == log.Total(g) + if g == f then 1 else 0
  {
    hide Select, Count;
    RecordFate(log.current, log.fates, |log.fates| - count, f);
  }

  lemma SpoilKeeps(log: Log, count: int, leftover: Message)
    requires log.Valid(count) && count > 0
    ensures log.Spoil(count, leftover).Valid(count)
    ensures log.Spoil(count, leftover).pushed == log.pushed
    ensures log.Spoil(count, leftover).current == log.current[|log.current| - count := leftover]
    ensures log.Spoil(count, leftover).spoiled == log.spoiled + {|log.pushed| - count}
    ensures log.Spoil(count, leftover).sent == log.sent
    ensures forall g :: log.Spoil(count, leftover).Total(g) == log.Total(g)
  {
    SelectFrame(log.current, log.fates, log.Spoil(count, leftover).current, log.fates, Drained);
  }

  // ------------------------------------------------------------- ring indices

  function Modulo(x: int, n: int): int
    requires n > 0
  {
    x % n
  }

  /** x modulo the capacity, for an index less than twice the capacity. */
  function Wrap(x: int, capacity: int): int {
    if x < capacity then x else x - capacity
  }

  lemma WrapIsModulo(x: int, capacity: int)
    requires 0 < capacity && 0 <= x < 2 * capacity
    ensures Modulo(x, capacity) == Wrap(x, capacity)
  {
    if x >= capacity {
      assert x == capacity * 1 + (x - capacity);
    }
  }

  /** How far slot k lies behind the head of the ring. */
  function Offset(head: int, capacity: int, k: int): int {
    if head <= k then k - head else k - head + capacity
  }

  /**
   The slots of a ring hold the last count of the items, starting at head, and
   every slot outside that window is empty.
   */
  ghost predicate RingHolds(slots: seq<Message>, head: int, count: int, items: seq<Message>)
    ensures RingHolds(slots, head, count, items) && count > 0 ==>
      0 <= head < |slots| && count <= |items| && slots[head] == items[|items| - count]
  {
    && 0 <= head < |slots|
    && 0 <= count <= |slots|
    && count <= |items|
    && forall k :: 0 <= k < |slots| ==>
         slots[k] == var i := Offset(head, |slots|, k); if i < count then items[|items| - count + i] else EMPTY
  }

  lemma RingPush(slots: seq<Message>, head: int, count: int, items: seq<Message>, message: Message)
    requires RingHolds(slots, head, count, items) && count < |slots|
    ensures RingHolds(slots[Wrap(head + count, |slots|) := message], head, count + 1, items + [message])
  {}

  /** On a full ring the tail is the head, so the new message replaces the oldest. */
  lemma RingPushFull(slots: seq<Message>, head: int, items: seq<Message>, message: Message)
    requires RingHolds(slots, head, |slots|, items)
    ensures RingHolds(slots[head := message], Wrap(head + 1, |slots|), |slots|, items + [message])
  {}

  lemma RingPop(slots: seq<Message>, head: int, count: int, items: seq<Message>)
    requires RingHolds(slots, head, count, items) && count > 0
    ensures RingHolds(slots[head := EMPTY], Wrap(head + 1, |slots|), count - 1, items)
  {}

  lemma RingSpoil(slots: seq<Message>, head: int, count: int, items: seq<Message>, leftover: Message)
    requires RingHolds(slots, head, count, items) && count > 0
    ensures RingHolds(slots[head := leftover], head, count, items[|items| - count := leftover])
  {}

  lemma RingEmpty(slots: seq<Message>, head: int, items: seq<Message>)
    requires RingHolds(slots, head, 0, items)
    ensures RingHolds(slots, 0, 0, items)
  {
    forall k | 0 <= k < |slots|
      ensures slots[k] == EMPTY
    {
      assert Offset(head, |slots|, k) >= 0;
    }
  }

  /** The last n items. */
  function Tail(items: seq<Message>, n: int): (t: seq<Message>)
    requires 0 <= n <= |items|
    ensures |t| == n && forall i :: 0 <= i < n ==> t[i] == items[|items| - n + i]
  {
    items[|items| - n..]
  }

  lemma TailPush(items: seq<Message>, n: int, message: Message)
    requires 0 <= n <= |items|
    ensures Tail(items + [message], n + 1) == Tail(items, n) + [message]
    ensures Tail(items + [message], n) == (Tail(items, n) + [message])[1..]
  {}

  lemma TailPop(items: seq<Message>, n: int)
    requires 0 < n <= |items|
    ensures Tail(items, n - 1) == Tail(items, n)[1..]
  {}

  lemma TailSpoil(items: seq<Message>, n: int, leftover: Message)
    requires 0 < n <= |items|
    ensures Tail(items[|items| - n := leftover], n)[1..] == Tail(items, n)[1..]
  {}

  /** Between two histories senders took some messages and nothing else was settled. */
  ghost predicate Took(before: Log, after: Log, taken: seq<Message>) {
    && after.pushed == before.pushed
    && after.sent == before.sent + taken
    && after.Total(Drained) == before.Total(Drained) + |taken|
    && after.Total(Evicted) == before.Total(Evicted)
    && after.Total(Discarded) == before.Total(Discarded)
  }

  lemma TookNothing(log: Log)
    ensures Took(log, log, [])
  {}

  lemma TookMore(a: Log, b: Log, c: Log, x: seq<Message>, y: seq<Message>)
    requires Took(a, b, x) && Took(b, c, y)
    ensures Took(a, c, x + y) && (y == [] ==> Took(a, c, x))
  {
    hide Log.Total;
    if y == [] { assert x + y == x; }
  }

  // What one Push, or one turn of Drain, does to the ring and the history.

  ghost function Pushed(log: Log, count: int, capacity: int, message: Message): Log
    requires log.Valid(count) && (count == capacity ==> count > 0)
  {
    if count == capacity then log.Settle(count, Evicted).Push(message) else log.Push(message)
  }

  lemma PushStep(log: Log, slots: seq<Message>, head: int, count: int, message: Message)
    requires log.Valid(count) && RingHolds(slots, head, count, log.current)
    ensures var evicted := if count == |slots| then 1 else 0;
      var log' := Pushed(log, count, |slots|, message);
      && log'.Valid(count + 1 - evicted)
      && RingHolds(slots[Wrap(head + count, |slots|) := message], Wrap(head + evicted, |slots|), count + 1 - evicted, log'.current)
      && Tail(log'.current, count + 1 - evicted) == (Tail(log.current, count) + [message])[evicted..]
      && log'.pushed == log.pushed + [message] && log'.spoiled == log.spoiled && log'.sent == log.sent
      && log'.Total(Evicted) == log.Total(Evicted) + evicted
      && log'.Total(Drained) == log.Total(Drained) && log'.Total(Discarded) == log.Total(Discarded)
  {
    hide Tail, Select, Count, HeldSuffix, Log.Valid, Log.Push, Log.Settle, Log.Total;
    TailPush(log.current, count, message);
    if count == |slots| {
      RingPushFull(slots, head, log.current, message);
      SettleKeeps(log, count, Evicted);
      PushKeeps(log.Settle(count, Evicted), count - 1, message);
    } else {
      RingPush(slots, head, count, log.current, message);
      PushKeeps(log, count, message);
    }
  }

  lemma DrainStep(log: Log, slots: seq<Message>, head: int, count: int)
    requires log.Valid(count) && RingHolds(slots, head, count, log.current) && count > 0
    ensures var log' := log.Settle(count, Drained);
      && log'.Valid(count - 1)
      && RingHolds(slots[head := EMPTY], Wrap(head + 1, |slots|), count - 1, log'.current)
      && Tail(log'.current, count - 1) == Tail(log.current, count)[1..]
      && log'.pushed == log.pushed && log'.spoiled == log.spoiled
      && log'.sent == log.sent + [Tail(log.current, count)[0]]
      && log'.Total(Drained) == log.Total(Drained) + 1
      && log'.Total(Evicted) == log.Total(Evicted) && log'.Total(Discarded) == log.Total(Discarded)
  {
    hide Tail, Select, Count, HeldSuffix, Log.Valid, Log.Settle, Log.Total;
    TailPop(log.current, count);
    RingPop(slots, head, count, log.current);
    SettleKeeps(log, count, Drained);
  }

  lemma ThrowStep(log: Log, slots: seq<Message>, head: int, count: int, leftover: Message)
    requires log.Valid(count) && RingHolds(slots, head, count, log.current) && count > 0
    ensures var log' := log.Spoil(count, leftover);
      && log'.Valid(count)
      && RingHolds(slots[head := leftover], head, count, log'.current)
      && Tail(log'.current, count)[1..] == Tail(log.current, count)[1..]
      && log'.pushed == log.pushed && log'.spoiled == log.spoiled + {|log.pushed| - count}
      && log'.sent == log.sent
      && log'.Total(Drained) == log.Total(Drained)
      && log'.Total(Evicted) == log.Total(Evicted) && log'.Total(Discarded) == log.Total(Discarded)
  {
    hide Tail, Select, Count, HeldSuffix, Log.Valid, Log.Spoil, Log.Total;
    TailSpoil(log.current, count, leftover);
    RingSpoil(slots, head, count, log.current, leftover);
    SpoilKeeps(log, count, leftover);
  }

  class MessageBuffer {
    const capacity: int
    const buffer: array<Message>
    var head: int
    var tail: int
    var count: int
    ghost var log: Log

    /** The indices are consistent; the live window holds the held messages and every other slot is empty. */
    ghost predicate Valid()
      reads this, buffer
    {
      && 0 < capacity == buffer.Length
      && 0 <= head < capacity
      && 0 <= count <= capacity
      && tail == Wrap(head + count, capacity)
      && log.Valid(count)
      && RingHolds(buffer[..], head, count, log.current)
    }

    /** The buffered messages, oldest first. */
    ghost function Contents(): (s: seq<Message>)
      requires Valid()
      reads this, buffer
      ensures |s| == count
    {
      Tail(log.current, count)
    }

    constructor (requested: int)
      ensures Valid() && fresh(buffer)
      ensures capacity == if requested > 0 then requested else 1
      ensures log == Log([], [], {}, [], [])
    {
      var size := if requested > 0 then requested else 1;
      capacity := size;
      buffer := new Message[size](i => EMPTY);
      head, tail, count := 0, 0, 0;
      log := Log([], [], {}, [], []);
    }

    /** Assigns one slot. */
    method Store(k: int, text: Message)
      requires 0 <= k < buffer.Length
      modifies buffer
      ensures buffer[..] == old(buffer[..])[k := text]
    {
      buffer[k] := text;
    }

    /** Appends a message; a full buffer loses its oldest one. */
    method Push(message: Message) returns (evicted: int)
      requires Valid()
      modifies this, buffer
      ensures Valid()
      ensures evicted == if old(count) == capacity then 1 else 0
      ensures Contents() == (old(Contents()) + [message])[evicted..]
      ensures log.pushed == old(log.pushed) + [message]
      ensures log.spoiled == old(log.spoiled) && log.sent == old(log.sent)
      ensures log.Total(Evicted) == old(log.Total(Evicted)) + evicted
      ensures log.Total(Drained) == old(log.Total(Drained))
      ensures log.Total(Discarded) == old(log.Total(Discarded))
    {
      hide Modulo, Tail, RingHolds, Select, Count, HeldSuffix, Pushed, Log.Valid, Log.Push, Log.Settle, Log.Spoil, Log.Total;
      evicted := 0;
      PushStep(log, buffer[..], head, count, message);
      WrapIsModulo(head + 1, capacity);
      WrapIsModulo(tail + 1, capacity);
      log := Pushed(log, count, capacity, message);
      if count == capacity {
        head := Modulo(head + 1, capacity);
        evicted := 1;
      } else {
        count := count + 1;
      }
      Store(tail, message);
      tail := Modulo(tail + 1, capacity);
    }

    /** One turn of Drain: the oldest message goes to the sender. */
    method DrainOne(sender: Sender, handed: seq<Message>) returns (message: Message, result: SenderResult)
      requires Valid() && count > 0
      modifies this, buffer
      ensures Valid()
      ensures message == old(Contents())[0] && result == sender(handed, message)
      ensures Took(old(log), log, if result.Threw? then [] else [message])
      ensures !result.Threw? ==> Contents() == old(Contents())[1..] && log.spoiled == old(log.spoiled)
      ensures result.Threw? ==>
        && count > 0 && Contents()[1..] == old(Contents())[1..]
        && log.spoiled == old(log.spoiled) + {|log.pushed| - count}
      ensures count == old(count) - if result.Threw? then 0 else 1
    {
      hide Modulo, Tail, RingHolds, Select, Count, HeldSuffix, Log.Valid, Log.Settle, Log.Spoil, Log.Total;
      var idx := head;
      message := buffer[idx];
      result := sender(handed, message);
      if result.Threw? {
        ThrowStep(log, buffer[..], head, count, result.leftover);
        Store(idx, result.leftover);
        log := log.Spoil(count, result.leftover);
      } else {
        DrainStep(log, buffer[..], head, count);
        WrapIsModulo(head + 1, capacity);
        Store(idx, EMPTY);
        head := Modulo(head + 1, capacity);
        log := log.Settle(count, Drained);
        count := count - 1;
      }
    }

    /**
     Hands messages to the sender, oldest first, until the buffer is empty, the
     sender says stop, or the sender throws.  A message whose sender said stop is
     gone; one whose sender threw stays, as whatever the sender left of it.
     */
    method Drain(sender: Sender) returns (drained: int, threw: bool)
      requires Valid()
      modifies this, buffer
      ensures Valid()
      ensures drained == DrainCount(sender, [], old(Contents()))
      ensures threw == DrainThrows(sender, [], old(Contents()))
      ensures !threw ==> Contents() == old(Contents())[drained..] && log.spoiled == old(log.spoiled)
      ensures threw ==>
        && drained < |old(Contents())| && count > 0
        && Contents()[1..] == old(Contents())[drained + 1..]
        && log.spoiled == old(log.spoiled) + {|log.pushed| - count}
      ensures Took(old(log), log, old(Contents())[..drained])
    {
      hide MessageBuffer.Valid, MessageBuffer.Contents, DrainCount, DrainThrows, Took;
      drained, threw := 0, false;
      var handed := [];
      ghost var all := Contents();
      TookNothing(log);
      while count > 0
        invariant Valid()
        invariant all == handed + Contents() && drained == |handed|
        invariant DrainCount(sender, [], all) == drained + DrainCount(sender, handed, Contents())
        invariant DrainThrows(sender, [], all) == DrainThrows(sender, handed, Contents())
        invariant Took(old(log), log, handed) && log.spoiled == old(log.spoiled)
        decreases count
      {
        ghost var rest, before := Contents(), log;
        DrainTurn(sender, handed, rest);
        SplitAt(all, handed, rest);
        var message, result := DrainOne(sender, handed);
        TookMore(old(log), before, log, handed, if result.Threw? then [] else [message]);
        if result.Threw? {
          threw := true;
          return;
        }
        Shift(handed, message, rest);
        handed := handed + [message];
        drained := drained + 1;
        if result.Stop? {
          SplitAt(all, handed, rest[1..]);
          return;
        }
      }
      assert Contents() == [];
      DrainNothing(sender, handed);
      SplitAt(all, handed, []);
    }

    /** Empties the buffer and its slots. */
    method Discard() returns (discarded: int)
      requires Valid()
      modifies this, buffer
      ensures Valid()
      ensures discarded == old(count) && Contents() == []
      ensures head == tail == 0
      ensures log.pushed == old(log.pushed) && log.spoiled == old(log.spoiled) && log.sent == old(log.sent)
      ensures log.Total(Discarded) == old(log.Total(Discarded)) + discarded
      ensures log.Total(Evicted) == old(log.Total(Evicted))
      ensures log.Total(Drained) == old(log.Total(Drained))
    {
      hide Modulo, Tail, RingHolds, Select, Count, HeldSuffix, Pushed, Log.Valid, Log.Push, Log.Settle, Log.Spoil, Log.Total;
      discarded := count;
      for i := 0 to count
        invariant 0 <= head < capacity == buffer.Length && head == old(head)
        invariant discarded == count == old(count) <= capacity
        invariant log.Valid(count - i)
        invariant RingHolds(buffer[..], Wrap(head + i, capacity), count - i, log.current)
        invariant log.pushed == old(log.pushed) && log.spoiled == old(log.spoiled) && log.sent == old(log.sent)
        invariant log.Total(Discarded) == old(log.Total(Discarded)) + i
        invariant log.Total(Evicted) == old(log.Total(Evicted))
        invariant log.Total(Drained) == old(log.Total(Drained))
      {
        ghost var slots := buffer[..];
        WrapIsModulo(head + i, capacity);
        var idx := Modulo(head + i, capacity);
        Store(idx, EMPTY);
        RingPop(slots, idx, count - i, log.current);
        SettleKeeps(log, count - i, Discarded);
        log := log.Settle(count - i, Discarded);
      }
      RingEmpty(buffer[..], Wrap(head + count, capacity), log.current);
      head, tail, count := 0, 0, 0;
    }

    /**
     The buffer never holds more than its capacity, and unless a sender threw it
     holds exactly the most recent messages of the whole history, unchanged.
     */
    lemma HoldsMostRecent()
      requires Valid()
      ensures |Contents()| == count <= capacity && count <= |log.pushed|
      ensures forall i :: 0 <= i < count && |log.pushed| - count + i !in log.spoiled ==>
        Contents()[i] == log.pushed[|log.pushed| - count + i]
      ensures log.spoiled == {} ==> Contents() == log.pushed[|log.pushed| - count..]
    {
      if log.spoiled == {} {
        assert log.current == log.pushed;
      }
    }

    /** Senders took every drained message once, in the order the messages were pushed. */
    lemma TakenOnceInOrder(i: nat)
      requires Valid() && i < |log.pushed| && log.fates[i] == Drained
      ensures Count(log.fates[..i], Drained) < |log.sent|
      ensures i !in log.spoiled ==> log.sent[Count(log.fates[..i], Drained)] == log.pushed[i]
    {
      SelectAt(log.current, log.fates, Drained, i);
    }

    /** Every message pushed was evicted, drained, discarded, or is still buffered. */
    lemma Conservation()
      requires Valid()
      ensures |log.pushed| == log.Total(Evicted) + log.Total(Drained) + log.Total(Discarded) + count
      ensures |log.sent| == log.Total(Drained)
    {
      CountsCover(log.fates);
      HeldCount(log.fates, count);
      SelectLength(log.current, log.fates, Drained);
    }
  }
}
