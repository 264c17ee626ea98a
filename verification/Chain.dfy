/**
 Interceptor chains.  An operation transforms a world (whatever the effects of
 the calls are observed in) and returns a status; an interceptor receives the
 next operation and may run it.  The chain is built by a loop from the last
 interceptor to the first.
 */
module Chain {

  type Op<!W, !S> = W -> (W, S)
  type Interceptor<!W, !S> = (Op<W, S>, W) -> (W, S)

  /** The closure one turn of the loop makes. */
  function Wrap<W, S>(interceptor: Interceptor<W, S>, next: Op<W, S>): Op<W, S> {
    w => interceptor(next, w)
  }

  /** The documented meaning: the first interceptor wraps the second, and so on inwards. */
  function Fold<W, S>(interceptors: seq<Interceptor<W, S>>, operation: Op<W, S>): Op<W, S> {
    if interceptors == [] then operation
    else Wrap(interceptors[0], Fold(interceptors[1..], operation))
  }

  method RunChain<W, S>(interceptors: seq<Interceptor<W, S>>, operation: Op<W, S>, w: W)
    returns (w': W, status: S)
    ensures (w', status) == Fold(interceptors, operation)(w)
  {
    if |interceptors| == 0 {
      var result := operation(w);
      return result.0, result.1;
    }
    var current := operation;
    var it := |interceptors|;
    while it > 0
      invariant 0 <= it <= |interceptors|
      invariant current == Fold(interceptors[it..], operation)
    {
      it := it - 1;
      var interceptor := interceptors[it];
      var prev := current;
      current := Wrap(interceptor, prev);
      assert interceptors[it..][1..] == interceptors[it + 1..];
    }
    assert interceptors[0..] == interceptors;
    var result := current(w);
    return result.0, result.1;
  }

  /** A chain can be cut anywhere: the inner part acts as the operation of the outer part. */
  lemma {:induction false} FoldConcat<W, S>(xs: seq<Interceptor<W, S>>, ys: seq<Interceptor<W, S>>, operation: Op<W, S>)
    ensures Fold(xs + ys, operation) == Fold(xs, Fold(ys, operation))
    decreases |xs|
  {
    if |xs| == 0 {
      assert xs + ys == ys;
    } else {
      assert (xs + ys)[1..] == xs[1..] + ys;
      FoldConcat(xs[1..], ys, operation);
    }
  }

  // -------------------------------------------- interceptors that call next once

  /** The interceptor does some work, calls next exactly once, and does some more on its result. */
  ghost predicate CallsNextOnce<W(!new), S(!new)>(i: Interceptor<W, S>, before: W -> W, after: (W, S) -> (W, S)) {
    forall next: Op<W, S>, w: W :: i(next, w) == after(next(before(w)).0, next(before(w)).1)
  }

  function AllBefore<W>(before: seq<W -> W>, w: W): W {
    if |before| == 0 then w else AllBefore(before[1..], before[0](w))
  }

  function AllAfter<W, S>(after: seq<(W, S) -> (W, S)>, w: W, s: S): (W, S) {
    if |after| == 0 then (w, s)
    else
      var inner := AllAfter(after[1..], w, s);
      after[0](inner.0, inner.1)
  }

  /**
   The work before next is done first interceptor first, then the operation runs
   once, then the work after next is done last interceptor first.
   */
  lemma {:induction false} ChainNests<W(!new), S(!new)>(
      interceptors: seq<Interceptor<W, S>>, before: seq<W -> W>, after: seq<(W, S) -> (W, S)>, operation: Op<W, S>, w: W)
    requires |interceptors| == |before| == |after|
    requires forall k :: 0 <= k < |interceptors| ==> CallsNextOnce(interceptors[k], before[k], after[k])
    ensures var result := operation(AllBefore(before, w));
      Fold(interceptors, operation)(w) == AllAfter(after, result.0, result.1)
    decreases |interceptors|
  {
    if |interceptors| > 0 {
      assert CallsNextOnce(interceptors[0], before[0], after[0]);
      forall k | 0 <= k < |interceptors| - 1
        ensures CallsNextOnce(interceptors[1..][k], before[1..][k], after[1..][k])
      {
        assert CallsNextOnce(interceptors[k + 1], before[k + 1], after[k + 1]);
      }
      ChainNests(interceptors[1..], before[1..], after[1..], operation, before[0](w));
    }
  }

  // -------------------------------------------------------- enter and exit events

  datatype Event = Enter(id: int) | Exit(id: int) | Other(what: int)

  function Logger<S>(id: int): Interceptor<seq<Event>, S> {
    (next: Op<seq<Event>, S>, w: seq<Event>) => var result := next(w + [Enter(id)]); (result.0 + [Exit(id)], result.1)
  }

  function Loggers<S>(first: int, n: nat): seq<Interceptor<seq<Event>, S>>
    decreases n
  {
    if n == 0 then [] else [Logger(first)] + Loggers(first + 1, n - 1)
  }

  /** enter first .. first + n - 1 */
  function Enters(first: int, n: nat): seq<Event>
    decreases n
  {
    if n == 0 then [] else [Enter(first)] + Enters(first + 1, n - 1)
  }

  /** exit first + n - 1 .. first */
  function Exits(first: int, n: nat): seq<Event>
    decreases n
  {
    if n == 0 then [] else Exits(first + 1, n - 1) + [Exit(first)]
  }

  lemma LoggerOutside<S>(first: int, n: nat, operation: Op<seq<Event>, S>, w: seq<Event>)
    requires n > 0
    ensures var inner := Fold(Loggers(first + 1, n - 1), operation)(w + [Enter(first)]);
      Fold(Loggers(first, n), operation)(w) == (inner.0 + [Exit(first)], inner.1)
  {
    assert Loggers<S>(first, n)[1..] == Loggers<S>(first + 1, n - 1);
  }

  /** n interceptors that log enter the operation in order and leave it in reverse. */
  lemma {:induction false} EventsNest<S>(first: int, n: nat, operation: Op<seq<Event>, S>, w: seq<Event>)
    ensures var result := operation(w + Enters(first, n));
      Fold(Loggers(first, n), operation)(w) == (result.0 + Exits(first, n), result.1)
    decreases n
  {
    if n == 0 {
      assert w + [] == w;
      var result := operation(w);
      assert result.0 + [] == result.0;
    } else {
      EventsNest(first + 1, n - 1, operation, w + [Enter(first)]);
      LoggerOutside(first, n, operation, w);
      hide Fold, Loggers;
      assert (w + [Enter(first)]) + Enters(first + 1, n - 1) == w + Enters(first, n);
      var result := operation(w + Enters(first, n));
      assert result.0 + Exits(first, n) == (result.0 + Exits(first + 1, n - 1)) + [Exit(first)];
    }
  }
}
