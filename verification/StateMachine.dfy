/**
 The connection state machine and the callbacks it selects.

 Transition chooses at most two callbacks, helped by a flag that no caller can
 see.  The words of callbacks that whole runs can select are shown to be exactly
 a small regular language.
 */
module StateMachine {

  datatype ConnectionState = Idle | Connecting | Ready | Reconnecting | Closed

  datatype Callback = OnConnected | OnDisconnected | OnReconnecting | OnReconnected | OnClosed

  predicate IsValidTransition(from: ConnectionState, to: ConnectionState) {
    match from
    case Idle => to == Connecting || to == Closed
    case Connecting => to == Ready || to == Closed
    case Ready => to == Reconnecting || to == Closed
    case Reconnecting => to == Connecting || to == Closed
    case Closed => false
  }

  /** The moves a connection can make. */
  const MOVES: set<(ConnectionState, ConnectionState)> := {
    (Idle, Connecting), (Idle, Closed), (Connecting, Ready), (Connecting, Closed),
    (Ready, Reconnecting), (Ready, Closed), (Reconnecting, Connecting), (Reconnecting, Closed)
  }

  /** The current state, and whether an outage has begun that no kReady has ended. */
  datatype Machine = Machine(state: ConnectionState, reconnecting: bool)

  function Next(m: Machine, to: ConnectionState): Machine {
    if !IsValidTransition(m.state, to) then m
    else Machine(to, if to == Reconnecting then true else if to == Ready then false else m.reconnecting)
  }

  /** The callbacks a transition selects when all five are installed. */
  function Selected(m: Machine, to: ConnectionState): seq<Callback> {
    if !IsValidTransition(m.state, to) then []
    else match to
      case Ready => if m.reconnecting then [OnReconnected] else [OnConnected]
      case Reconnecting => [OnDisconnected, OnReconnecting]
      case Closed => [OnClosed]
      case _ => []
  }

  /** A machine moves by exactly the eight moves, and stays put on every other request. */
  lemma MovesAreTheEight(m: Machine, to: ConnectionState)
    ensures Next(m, to).state == to && m.state != to <==> (m.state, to) in MOVES
    ensures (m.state, to) !in MOVES ==> Next(m, to) == m && Selected(m, to) == []
  {}

  /** What each move selects. */
  lemma SelectedByMove(m: Machine, to: ConnectionState)
    requires (m.state, to) in MOVES
    ensures to == Connecting ==> Selected(m, to) == []
    ensures to == Ready ==> Selected(m, to) == [if m.reconnecting then OnReconnected else OnConnected]
    ensures to == Reconnecting ==> Selected(m, to) == [OnDisconnected, OnReconnecting]
    ensures to == Closed ==> Selected(m, to) == [OnClosed]
    ensures Next(m, to) == Machine(to, to == Reconnecting || (to != Ready && m.reconnecting))
  {}

  function Keep(word: seq<Callback>, installed: set<Callback>): seq<Callback> {
    if word == [] then []
    else (if word[0] in installed then [word[0]] else []) + Keep(word[1..], installed)
  }

  /** What is invoked of a word: callbacks in order, up to and including the first that throws. */
  function Invoked(word: seq<Callback>, throws: set<Callback>): seq<Callback> {
    if word == [] then []
    else if word[0] in throws then [word[0]]
    else [word[0]] + Invoked(word[1..], throws)
  }

  /** How a call of Transition ends: it returns, or a callback's exception goes through it. */
  datatype Result = Returned(ok: bool) | Threw

  /** Nothing, one callback, or the two of an outage. */
  lemma KeepShort(installed: set<Callback>)
    ensures Keep([], installed) == []
    ensures forall c :: Keep([c], installed) == if c in installed then [c] else []
    ensures Keep([OnDisconnected, OnReconnecting], installed)
         == (if OnDisconnected in installed then [OnDisconnected] else [])
            + (if OnReconnecting in installed then [OnReconnecting] else [])
  {
    assert [OnDisconnected, OnReconnecting][1..] == [OnReconnecting];
  }

  lemma InvokedShort(throws: set<Callback>)
    ensures Invoked([], throws) == []
    ensures forall c :: Invoked([c], throws) == [c]
    ensures forall c, d :: Invoked([c, d], throws) == if c in throws then [c] else [c, d]
  {
    forall c, d
      ensures Invoked([c, d], throws) == if c in throws then [c] else [c, d]
    {
      assert [c, d][1..] == [d] && [d][1..] == [];
    }
  }

  lemma SelectedAtMostTwo(m: Machine, to: ConnectionState, installed: set<Callback>)
    ensures var word := Keep(Selected(m, to), installed);
      word == [] || word == [word[0]] || word == [OnDisconnected, OnReconnecting]
  {
    KeepShort(installed);
    hide Keep;
  }

  class StateMachine {
    var state: ConnectionState
    var reconnecting: bool
    var installed: set<Callback>

    function Current(): Machine
      reads this
    {
      Machine(state, reconnecting)
    }

    constructor (initial: ConnectionState)
      ensures Current() == Machine(initial, false) && installed == {}
    {
      state, reconnecting, installed := initial, false, {};
    }

    method SetCallback(callback: Callback, present: bool)
      modifies this
      ensures Current() == old(Current())
      ensures installed == if present then old(installed) + {callback} else old(installed) - {callback}
    {
      installed := if present then installed + {callback} else installed - {callback};
    }

    /**
     fired lists the callbacks invoked after the lock is released, in order; throws
     holds those that throw.  The state has changed even if one of them does.
     */
    method Transition(to: ConnectionState, throws: set<Callback>) returns (result: Result, fired: seq<Callback>)
      modifies this
      ensures Current() == Next(old(Current()), to)
      ensures installed == old(installed)
      ensures fired == Invoked(Keep(Selected(old(Current()), to), installed), throws)
      ensures result.Threw? <==> exists c :: c in fired && c in throws
      ensures result.Returned? ==> (result.ok <==> (old(state), to) in MOVES)
      ensures (old(state), to) !in MOVES ==> result == Returned(false) && Current() == old(Current())
    {
      MovesAreTheEight(Current(), to);
      KeepShort(installed);
      InvokedShort(throws);
      SelectedAtMostTwo(Current(), to, installed);
      hide Keep, Invoked;
      fired := [];
      if !IsValidTransition(state, to) {
        return Returned(false), fired;
      }
      var from := state;
      state := to;
      if to == Reconnecting {
        reconnecting := true;
      }
      var selected := [];
      if to == Ready && from == Connecting {
        if reconnecting {
          reconnecting := false;
          if OnReconnected in installed { selected := [OnReconnected]; }
        } else {
          if OnConnected in installed { selected := [OnConnected]; }
        }
      } else if to == Reconnecting {
        if OnDisconnected in installed {
          selected := [OnDisconnected];
          if OnReconnecting in installed { selected := selected + [OnReconnecting]; }
        } else {
          if OnReconnecting in installed { selected := [OnReconnecting]; }
        }
      } else if to == Closed {
        if OnClosed in installed { selected := [OnClosed]; }
      }
      assert selected == Keep(Selected(old(Current()), to), installed);
      result := Returned(true);
      if selected != [] {
        fired := [selected[0]];
        if selected[0] in throws {
          result := Threw;
        } else if |selected| == 2 {
          fired := selected;
          if selected[1] in throws { result := Threw; }
        }
      }
    }
  }

  /** Exceptions lose nothing but the second callback of an outage, and that exactly if the first throws. */
  lemma OnlyReconnectingIsLost(m: Machine, to: ConnectionState, installed: set<Callback>, throws: set<Callback>)
    ensures var word := Keep(Selected(m, to), installed);
      && (Invoked(word, throws) != word <==> word == [OnDisconnected, OnReconnecting] && OnDisconnected in throws)
      && (Invoked(word, throws) != word ==> Invoked(word, throws) == [OnDisconnected])
  {
    SelectedAtMostTwo(m, to, installed);
    InvokedShort(throws);
    hide Keep, Invoked;
  }

  // ------------------------------------------------------------------- runs

  datatype Op = Go(to: ConnectionState) | SetCallback(callback: Callback, present: bool)

  function MachineAfter(m: Machine, ops: seq<Op>): Machine {
    if ops == [] then m
    else
      var before, op := MachineAfter(m, ops[..|ops| - 1]), ops[|ops| - 1];
      if op.Go? then Next(before, op.to) else before
  }

  function InstalledAfter(installed: set<Callback>, ops: seq<Op>): set<Callback> {
    if ops == [] then installed
    else
      var before, op := InstalledAfter(installed, ops[..|ops| - 1]), ops[|ops| - 1];
      if op.Go? then before else if op.present then before + {op.callback} else before - {op.callback}
  }

  /** The word a run selects when all callbacks are installed throughout. */
  function WordOf(m: Machine, ops: seq<Op>): seq<Callback> {
    if ops == [] then []
    else
      var rest, op := ops[..|ops| - 1], ops[|ops| - 1];
      WordOf(m, rest) + if op.Go? then Selected(MachineAfter(m, rest), op.to) else []
  }

  /** What a run fires, given what is installed at the start and what throws. */
  function FiredBy(m: Machine, installed: set<Callback>, throws: set<Callback>, ops: seq<Op>): seq<Callback> {
    if ops == [] then []
    else
      var rest, op := ops[..|ops| - 1], ops[|ops| - 1];
      FiredBy(m, installed, throws, rest) +
      if op.Go? then Invoked(Keep(Selected(MachineAfter(m, rest), op.to), InstalledAfter(installed, rest)), throws)
      else []
  }

  const ALL: set<Callback> := {OnConnected, OnDisconnected, OnReconnecting, OnReconnected, OnClosed}

  lemma AllHas(c: Callback)
    ensures c in ALL
  {
    match c { case OnConnected => case OnDisconnected => case OnReconnecting => case OnReconnected => case OnClosed => }
  }

  lemma {:induction false} KeepAll(word: seq<Callback>)
    ensures Keep(word, ALL) == word
  {
    if word != [] {
      KeepAll(word[1..]);
      AllHas(word[0]);
      assert word == [word[0]] + word[1..];
    }
  }

  lemma KeepFirst(word: seq<Callback>, installed: set<Callback>)
    requires word != []
    ensures Keep(word, installed) == (if word[0] in installed then [word[0]] else []) + Keep(word[1..], installed)
  {}

  lemma {:induction false} KeepConcat(x: seq<Callback>, y: seq<Callback>, installed: set<Callback>)
    ensures Keep(x + y, installed) == Keep(x, installed) + Keep(y, installed)
  {
    if x == [] {
      assert x + y == y;
    } else {
      assert (x + y)[1..] == x[1..] + y && (x + y)[0] == x[0];
      KeepConcat(x[1..], y, installed);
      KeepFirst(x, installed);
      KeepFirst(x + y, installed);
      hide Keep;
    }
  }

  /**
   With the installed callbacks left alone, a run fires exactly its word restricted
   to them, unless an installed on_disconnected throws and so keeps on_reconnecting
   from being invoked.
   */
  lemma {:induction false} FiredIsRestrictedWord(m: Machine, installed: set<Callback>, throws: set<Callback>, ops: seq<Op>)
    requires forall i :: 0 <= i < |ops| ==> ops[i].Go?
    requires !(OnDisconnected in throws && {OnDisconnected, OnReconnecting} <= installed)
    ensures InstalledAfter(installed, ops) == installed
    ensures FiredBy(m, installed, throws, ops) == Keep(WordOf(m, ops), installed)
    ensures installed == ALL ==> FiredBy(m, installed, throws, ops) == WordOf(m, ops)
    decreases |ops|
  {
    hide Keep, Invoked;
    if ops != [] {
      var rest, op := ops[..|ops| - 1], ops[|ops| - 1];
      FiredIsRestrictedWord(m, installed, throws, rest);
      if op.Go? {
        var selected := Selected(MachineAfter(m, rest), op.to);
        OnlyReconnectingIsLost(MachineAfter(m, rest), op.to, installed, throws);
        KeepShort(installed);
        KeepConcat(WordOf(m, rest), selected, installed);
      }
    } else {
      KeepShort(installed);
    }
    if installed == ALL { KeepAll(WordOf(m, ops)); }
  }

  // --------------------------------------------------------------- language

  /**
   The shape of a word: the first connection, then a number of complete outages,
   then perhaps an outage still under way, then perhaps the close.
   */
  datatype Shape = Shape(connected: bool, outages: nat, down: bool, closed: bool) {
    predicate Valid() { !connected ==> outages == 0 && !down }
  }

  function Outages(n: nat): seq<Callback> {
    if n == 0 then [] else Outages(n - 1) + [OnDisconnected, OnReconnecting, OnReconnected]
  }

  function Spell(s: Shape): seq<Callback> {
    (if s.connected then [OnConnected] else [])
    + Outages(s.outages)
    + (if s.down then [OnDisconnected, OnReconnecting] else [])
    + (if s.closed then [OnClosed] else [])
  }

  /** The hidden flag and the state, as the shape of the word so far determines them. */
  predicate Agrees(s: Shape, m: Machine) {
    && s.Valid()
    && (m.state == Closed <==> s.closed)
    && m.reconnecting == s.down
    && (!s.closed && !s.connected ==> m.state == Idle || m.state == Connecting)
    && (!s.closed && s.connected && !s.down ==> m.state == Ready)
    && (!s.closed && s.down ==> m.state == Reconnecting || m.state == Connecting)
  }

  function Grow(s: Shape, m: Machine, to: ConnectionState): Shape
    requires s.Valid()
  {
    if !IsValidTransition(m.state, to) then s
    else match to
      case Ready =>
        if m.reconnecting then s.(outages := s.outages + 1, down := false) else s.(connected := true)
      case Reconnecting => s.(down := true)
      case Closed => s.(closed := true)
      case _ => s
  }

  lemma GrowSpells(s: Shape, m: Machine, to: ConnectionState)
    requires Agrees(s, m)
    ensures Agrees(Grow(s, m, to), Next(m, to))
    ensures Spell(Grow(s, m, to)) == Spell(s) + Selected(m, to)
  {}

  /** Every run from kIdle selects a word of the language, and its shape gives away the hidden flag. */
  lemma {:induction false} RunsStayInLanguage(ops: seq<Op>) returns (s: Shape)
    ensures Agrees(s, MachineAfter(Machine(Idle, false), ops))
    ensures WordOf(Machine(Idle, false), ops) == Spell(s)
    decreases |ops|
  {
    if ops == [] {
      s := Shape(false, 0, false, false);
    } else {
      var rest, op := ops[..|ops| - 1], ops[|ops| - 1];
      s := RunsStayInLanguage(rest);
      if op.Go? {
        GrowSpells(s, MachineAfter(Machine(Idle, false), rest), op.to);
        s := Grow(s, MachineAfter(Machine(Idle, false), rest), op.to);
      }
    }
  }

  /** A run that selects a given word. */
  function Script(s: Shape): seq<Op>
    decreases s.closed, s.outages, s.down
  {
    if s.closed then Script(s.(closed := false)) + [Go(Closed)]
    else if s.down then Script(s.(down := false)) + [Go(Reconnecting)]
    else if s.outages > 0 then
      Script(s.(outages := s.outages - 1, down := true)) + [Go(Connecting)] + [Go(Ready)]
    else if s.connected then [Go(Connecting)] + [Go(Ready)]
    else []
  }

  lemma OneMore(m: Machine, ops: seq<Op>, to: ConnectionState)
    ensures MachineAfter(m, ops + [Go(to)]) == Next(MachineAfter(m, ops), to)
    ensures WordOf(m, ops + [Go(to)]) == WordOf(m, ops) + Selected(MachineAfter(m, ops), to)
  {
    assert (ops + [Go(to)])[..|ops|] == ops;
  }

  /** Every word of the language is selected by some run from kIdle. */
  lemma {:induction false} LanguageIsReached(s: Shape)
    requires s.Valid()
    ensures WordOf(Machine(Idle, false), Script(s)) == Spell(s)
    ensures Agrees(s, MachineAfter(Machine(Idle, false), Script(s)))
    ensures s.down && !s.closed ==> MachineAfter(Machine(Idle, false), Script(s)).state == Reconnecting
    decreases s.closed, s.outages, s.down
  {
    hide Spell, WordOf, MachineAfter, Selected;
    var idle := Machine(Idle, false);
    if s.closed {
      var t := s.(closed := false);
      LanguageIsReached(t);
      OneMore(idle, Script(t), Closed);
      GrowSpells(t, MachineAfter(idle, Script(t)), Closed);
    } else if s.down {
      var t := s.(down := false);
      LanguageIsReached(t);
      OneMore(idle, Script(t), Reconnecting);
      GrowSpells(t, MachineAfter(idle, Script(t)), Reconnecting);
    } else if s.outages > 0 {
      var t := s.(outages := s.outages - 1, down := true);
      LanguageIsReached(t);
      OneMore(idle, Script(t), Connecting);
      OneMore(idle, Script(t) + [Go(Connecting)], Ready);
      GrowSpells(t, MachineAfter(idle, Script(t)), Connecting);
      GrowSpells(t, MachineAfter(idle, Script(t) + [Go(Connecting)]), Ready);
    } else {
      FirstConnection(s);
    }
  }

  lemma FirstConnection(s: Shape)
    requires s.Valid() && s.outages == 0 && !s.down && !s.closed
    ensures WordOf(Machine(Idle, false), Script(s)) == Spell(s)
    ensures Agrees(s, MachineAfter(Machine(Idle, false), Script(s)))
  {
    var idle, nothing := Machine(Idle, false), Shape(false, 0, false, false);
    assert WordOf(idle, []) == Spell(nothing) && Agrees(nothing, MachineAfter(idle, []));
    if s.connected {
      hide Spell, WordOf, MachineAfter, Selected;
      assert [] + [Go(Connecting)] == [Go(Connecting)];
      OneMore(idle, [], Connecting);
      GrowSpells(nothing, idle, Connecting);
      OneMore(idle, [Go(Connecting)], Ready);
      GrowSpells(nothing, Machine(Connecting, false), Ready);
    }
  }

  /** The words selected by runs from kIdle are exactly the words of the language. */
  lemma SelectedWordsAreTheLanguage(word: seq<Callback>)
    ensures (exists ops :: WordOf(Machine(Idle, false), ops) == word)
       <==> (exists s: Shape :: s.Valid() && Spell(s) == word)
  {
    hide Spell, WordOf;
    var idle := Machine(Idle, false);
    if ops :| WordOf(idle, ops) == word {
      var s := RunsStayInLanguage(ops);
      assert s.Valid() && Spell(s) == word;
    }
    if s: Shape :| s.Valid() && Spell(s) == word {
      LanguageIsReached(s);
      assert WordOf(idle, Script(s)) == word;
    }
  }

  /** kReady always clears the flag, so a later connection is never mistaken for a reconnection. */
  lemma ReadyClearsFlag(ops: seq<Op>)
    ensures var m := MachineAfter(Machine(Idle, false), ops);
      m.state == Ready ==> !m.reconnecting
  {
    var s := RunsStayInLanguage(ops);
  }

  /** Closing is final: nothing a caller does afterwards changes the state or selects a callback. */
  lemma {:induction false} ClosedIsFinal(m: Machine, ops: seq<Op>)
    requires m.state == Closed
    ensures MachineAfter(m, ops) == m && WordOf(m, ops) == []
    decreases |ops|
  {
    if ops != [] { ClosedIsFinal(m, ops[..|ops| - 1]); }
  }
}
