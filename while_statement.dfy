/**
 * WhileStatement (src/Handlers/Types/WhileStatement.php): the loop handler.
 * The condition is evaluated before every run of the body; `continue` and
 * `break` signals raised by the body are caught here; a one-bit toggle makes
 * the loop tick the cooperative task queue on every second iteration.
 *
 * The condition and body handlers are resolved once and are given here as
 * functions on the interpreter state `S`. The source loop is unbounded; the
 * model bounds it by `fuel`, the number of condition evaluations allowed.
 */
module WhileStatement {

  /** How the body ended: normally, or with a `continue` or `break` signal. */
  datatype Signal = Normal | Continue | Break

  /** What the loop did, in order: a condition check and its truthiness, a tick, a body run. */
  datatype Event = Condition(truthy: bool) | Tick | Body(signal: Signal)

  datatype Exit = ConditionFalse | BrokenOut | FuelExhausted

  datatype Run<S> = Run(state: S, events: seq<Event>, exit: Exit)

  /** The task queue of the context; only the number of ticks it received is modelled. */
  class TaskQueue {
    var ticks: nat

    constructor ()
      ensures ticks == 0
    {
      ticks := 0;
    }

    method Tick()
      modifies this
      ensures ticks == old(ticks) + 1
    {
      ticks := ticks + 1;
    }
  }

  /** `$tickBit ^= 1` on a one-bit value. */
  function Flip(bit: nat): nat
  {
    if bit == 1 then 0 else 1
  }

  /**
   * The loop as a function: check the condition; when falsy stop; otherwise
   * flip the bit, tick when it became 1, run the body; a `break` stops, a
   * `continue` or a normal end goes back to the condition.
   */
  function Loop<S>(condition: S -> (bool, S), body: S -> (Signal, S), s: S, tickBit: nat, fuel: nat): Run<S>
    decreases fuel
  {
    if fuel == 0 then Run(s, [], FuelExhausted)
    else if !condition(s).0 then Run(condition(s).1, [Condition(false)], ConditionFalse)
    else
      var after := body(condition(s).1);
      if after.0 == Break then Run(after.1, Iteration(tickBit, Break), BrokenOut)
      else Prepend(Iteration(tickBit, after.0), Loop(condition, body, after.1, Flip(tickBit), fuel - 1))
  }

  /** The events of one entered iteration: the truthy check, the tick when the flipped bit is 1, the body. */
  function Iteration(tickBit: nat, signal: Signal): seq<Event>
  {
    [Condition(true)] + (if Flip(tickBit) == 1 then [Tick] else []) + [Body(signal)]
  }

  /** A run preceded by the events `first`. */
  function Prepend<S>(first: seq<Event>, run: Run<S>): Run<S>
  {
    Run(run.state, first + run.events, run.exit)
  }

  lemma PrependTwice<S>(a: seq<Event>, b: seq<Event>, run: Run<S>)
    ensures Prepend(a, Prepend(b, run)) == Prepend(a + b, run)
  {
    assert a + (b + run.events) == a + b + run.events;
  }

  function Ticks(events: seq<Event>): nat
  {
    if events == [] then 0 else (if events[0] == Tick then 1 else 0) + Ticks(events[1..])
  }

  function Bodies(events: seq<Event>): nat
  {
    if events == [] then 0 else (if events[0].Body? then 1 else 0) + Bodies(events[1..])
  }

  lemma {:induction false} CountsAppend(a: seq<Event>, b: seq<Event>)
    ensures Ticks(a + b) == Ticks(a) + Ticks(b)
    ensures Bodies(a + b) == Bodies(a) + Bodies(b)
  {
    if a != [] {
      assert (a + b)[1..] == a[1..] + b;
      CountsAppend(a[1..], b);
    } else {
      assert a + b == b;
    }
  }

  lemma CountsSingleton(x: Event)
    ensures Ticks([x]) == (if x == Tick then 1 else 0)
    ensures Bodies([x]) == (if x.Body? then 1 else 0)
  {
    assert [x][1..] == [];
  }

  /**
   * `handle`: the PHP loop with its tick bit, its `continue` and its `break`,
   * agreeing with `Loop` on the final state and the exit, and ticking the
   * queue once per `Tick` event of `Loop`.
   */
  method Handle<S>(condition: S -> (bool, S), body: S -> (Signal, S), s0: S, queue: TaskQueue, fuel: nat)
    returns (s: S, exit: Exit)
    modifies queue
    ensures s == Loop(condition, body, s0, 1, fuel).state
    ensures exit == Loop(condition, body, s0, 1, fuel).exit
    ensures queue.ticks == old(queue.ticks) + Ticks(Loop(condition, body, s0, 1, fuel).events)
  {
    var tickBit: nat := 1;
    var remaining := fuel;
    ghost var trace: seq<Event> := [];
    s := s0;
    exit := FuelExhausted;
    while remaining > 0
      invariant tickBit <= 1
      invariant queue.ticks == old(queue.ticks) + Ticks(trace)
      invariant Loop(condition, body, s0, 1, fuel) == Prepend(trace, Loop(condition, body, s, tickBit, remaining))
      decreases remaining
    {
      ghost var sBefore := s;
      var checked := condition(s);
      var truthy := checked.0;
      s := checked.1;
      if !truthy {
        CountsAppend(trace, [Condition(false)]);
        trace := trace + [Condition(false)];
        exit := ConditionFalse;
        break;
      }
      ghost var bitBefore := tickBit;
      tickBit := Flip(tickBit);
      if tickBit == 1 {
        queue.Tick();
      }
      var ran := body(s);
      var signal := ran.0;
      s := ran.1;
      ghost var head := Iteration(bitBefore, signal);
      IterationFacts(bitBefore, signal);
      CountsAppend(trace, head);
      assert ran == body(condition(sBefore).1);
      remaining := remaining - 1;
      if signal == Break {
        trace := trace + head;
        exit := BrokenOut;
        break;
      }
      PrependTwice(trace, head, Loop(condition, body, s, tickBit, remaining));
      trace := trace + head;
      if signal == Continue {
        continue;
      }
    }
    assert Loop(condition, body, s0, 1, fuel).events == trace + [] == trace;
  }

  /** One iteration: a truthy check first, a body last, one body, a tick exactly when the flipped bit is 1. */
  lemma IterationFacts(tickBit: nat, signal: Signal)
    ensures var e := Iteration(tickBit, signal);
      && e[0] == Condition(true) && e[|e| - 1] == Body(signal)
      && Bodies(e) == 1
      && Ticks(e) == (if Flip(tickBit) == 1 then 1 else 0)
      && Ordered(e)
  {
    CountsSingleton(Condition(true));
    CountsSingleton(Body(signal));
    var ticked: seq<Event> := if Flip(tickBit) == 1 then [Tick] else [];
    if ticked != [] {
      CountsSingleton(Tick);
    }
    CountsAppend([Condition(true)], ticked);
    CountsAppend([Condition(true)] + ticked, [Body(signal)]);
    if Flip(tickBit) == 1 {
      assert Iteration(tickBit, signal) == [Condition(true), Tick, Body(signal)];
    } else {
      assert Iteration(tickBit, signal) == [Condition(true), Body(signal)];
    }
  }

  /**
   * Tick cadence: starting from bit 1, a run that entered the body n times
   * ticked the queue exactly n / 2 times (rounded down); from bit 0 it would be
   * (n + 1) / 2.
   */
  lemma {:induction false} TickCadence<S>(condition: S -> (bool, S), body: S -> (Signal, S), s: S, tickBit: nat, fuel: nat)
    requires tickBit <= 1
    ensures var e := Loop(condition, body, s, tickBit, fuel).events;
      Ticks(e) == (Bodies(e) + 1 - tickBit) / 2
    decreases fuel
  {
    if fuel > 0 && condition(s).0 {
      var after := body(condition(s).1);
      IterationFacts(tickBit, after.0);
      if after.0 != Break {
        var rest := Loop(condition, body, after.1, Flip(tickBit), fuel - 1);
        CountsAppend(Iteration(tickBit, after.0), rest.events);
        TickCadence(condition, body, after.1, Flip(tickBit), fuel - 1);
      }
    }
  }

  /** The event at `i` comes right after a truthy condition check, or right after a tick that does. */
  ghost predicate AfterTruthyCondition(e: seq<Event>, i: int)
    requires 0 <= i < |e|
  {
    (i >= 1 && e[i - 1] == Condition(true)) || (i >= 2 && e[i - 1] == Tick && e[i - 2] == Condition(true))
  }

  /** The event at `i` has a successor satisfying `p`. */
  ghost predicate NextIs(e: seq<Event>, i: int, p: Event -> bool)
    requires 0 <= i < |e|
  {
    i + 1 < |e| && p(e[i + 1])
  }

  /** Every body run comes right after a truthy condition check, or right after a tick that does. */
  ghost predicate BodiesFollowTruthyCondition(e: seq<Event>)
  {
    forall i | 0 <= i < |e| && e[i].Body? :: AfterTruthyCondition(e, i)
  }

  /** Within an iteration the tick comes first: every tick is followed at once by a body run. */
  ghost predicate TicksPrecedeBodies(e: seq<Event>)
  {
    forall i | 0 <= i < |e| && e[i] == Tick :: NextIs(e, i, (x: Event) => x.Body?)
  }

  /** A body run that is not the last event did not break and is followed by a new condition check. */
  ghost predicate BodiesReturnToCondition(e: seq<Event>)
  {
    forall i | 0 <= i < |e| - 1 && e[i].Body? :: e[i].signal != Break && NextIs(e, i, (x: Event) => x.Condition?)
  }

  /** A falsy condition check can only be the last event. */
  ghost predicate FalsyConditionEnds(e: seq<Event>)
  {
    forall i | 0 <= i < |e| - 1 :: e[i] != Condition(false)
  }

  ghost predicate Ordered(e: seq<Event>)
  {
    && BodiesFollowTruthyCondition(e)
    && TicksPrecedeBodies(e)
    && BodiesReturnToCondition(e)
    && FalsyConditionEnds(e)
  }

  lemma OrderedAppend(a: seq<Event>, b: seq<Event>)
    requires Ordered(a) && Ordered(b)
    requires a != [] && a[|a| - 1].Body? && a[|a| - 1].signal != Break
    requires b == [] || b[0].Condition?
    ensures Ordered(a + b)
  {
    var e := a + b;
    forall i | 0 <= i < |e| && e[i].Body?
      ensures AfterTruthyCondition(e, i)
    {
      if i >= |a| {
        var j := i - |a|;
        assert e[i] == b[j] && AfterTruthyCondition(b, j);
        assert e[i - 1] == b[j - 1];
        if j >= 2 {
          assert e[i - 2] == b[j - 2];
        }
      } else {
        assert e[i] == a[i] && AfterTruthyCondition(a, i);
        if i >= 2 {
          assert e[i - 2] == a[i - 2];
        }
      }
    }
    forall i | 0 <= i < |e| && e[i] == Tick
      ensures NextIs(e, i, (x: Event) => x.Body?)
    {
      if i >= |a| {
        assert e[i] == b[i - |a|] && NextIs(b, i - |a|, (x: Event) => x.Body?);
        assert e[i + 1] == b[i + 1 - |a|];
      } else {
        assert e[i] == a[i] && NextIs(a, i, (x: Event) => x.Body?);
        assert e[i + 1] == a[i + 1];
      }
    }
    forall i | 0 <= i < |e| - 1 && e[i].Body?
      ensures e[i].signal != Break && NextIs(e, i, (x: Event) => x.Condition?)
    {
      if i >= |a| {
        assert e[i] == b[i - |a|] && NextIs(b, i - |a|, (x: Event) => x.Condition?);
        assert e[i + 1] == b[i + 1 - |a|];
      } else if i < |a| - 1 {
        assert e[i] == a[i] && NextIs(a, i, (x: Event) => x.Condition?);
        assert e[i + 1] == a[i + 1];
      } else {
        assert e[i + 1] == b[0];
      }
    }
    forall i | 0 <= i < |e| - 1
      ensures e[i] != Condition(false)
    {
      if i >= |a| {
        assert e[i] == b[i - |a|];
      } else {
        assert e[i] == a[i];
      }
    }
  }

  /**
   * The order of events in every run: bodies only after a truthy condition
   * (and after the tick when one is due), a `continue` or normal end goes back
   * to the condition, a `break` ends the run with no further check, tick or
   * body, and a falsy condition ends it too.
   */
  lemma {:induction false} EventOrder<S>(condition: S -> (bool, S), body: S -> (Signal, S), s: S, tickBit: nat, fuel: nat)
    ensures Ordered(Loop(condition, body, s, tickBit, fuel).events)
    ensures var e := Loop(condition, body, s, tickBit, fuel).events;
      e == [] || e[0].Condition?
    decreases fuel
  {
    if fuel > 0 {
      if condition(s).0 {
        var after := body(condition(s).1);
        IterationFacts(tickBit, after.0);
        if after.0 != Break {
          EventOrder(condition, body, after.1, Flip(tickBit), fuel - 1);
          OrderedAppend(Iteration(tickBit, after.0), Loop(condition, body, after.1, Flip(tickBit), fuel - 1).events);
        }
      } else {
        assert Ordered([Condition(false)]);
      }
    }
  }

  /**
   * Why a run stopped is read off its last event: a `break` exactly when the
   * last event is a body run that broke, a falsy condition exactly when the
   * last event is that check.
   */
  lemma {:induction false} ExitReason<S>(condition: S -> (bool, S), body: S -> (Signal, S), s: S, tickBit: nat, fuel: nat)
    ensures var r := Loop(condition, body, s, tickBit, fuel);
      && (r.exit == BrokenOut <==> r.events != [] && r.events[|r.events| - 1] == Body(Break))
      && (r.exit == ConditionFalse <==> r.events != [] && r.events[|r.events| - 1] == Condition(false))
    decreases fuel
  {
    if fuel > 0 && condition(s).0 {
      var after := body(condition(s).1);
      var head := Iteration(tickBit, after.0);
      IterationFacts(tickBit, after.0);
      if after.0 != Break {
        var rest := Loop(condition, body, after.1, Flip(tickBit), fuel - 1);
        ExitReason(condition, body, after.1, Flip(tickBit), fuel - 1);
        if rest.events != [] {
          assert (head + rest.events)[|head + rest.events| - 1] == rest.events[|rest.events| - 1];
        } else {
          assert head + rest.events == head;
        }
      }
    }
  }

  /** A counter condition: truthy while the counter is below `limit`; evaluating it changes nothing. */
  function Below(limit: nat): nat -> (bool, nat)
  {
    (n: nat) => (n < limit, n)
  }

  /** A body that increments the counter and raises `break` when it runs with the counter at `at`. */
  function BreakAt(at: int): nat -> (Signal, nat)
  {
    (n: nat) => (if n == at then Break else Normal, n + 1)
  }

  /**
   * A loop whose condition is truthy for `limit - n` more checks enters the
   * body that many times and stops on the falsy check; from bit 1 and a zero
   * counter it ticks limit / 2 times (2 ticks for 5 iterations).
   */
  lemma {:induction false} CountedLoop(limit: nat, n: nat, tickBit: nat, fuel: nat)
    requires n <= limit < n + fuel
    ensures var r := Loop<nat>(Below(limit), BreakAt(-1), n, tickBit, fuel);
      Bodies(r.events) == limit - n && r.exit == ConditionFalse && r.state == limit
    decreases limit - n
  {
    var r := Loop<nat>(Below(limit), BreakAt(-1), n, tickBit, fuel);
    if n < limit {
      assert Below(limit)(n) == (true, n);
      assert BreakAt(-1)(n) == (Normal, n + 1);
      IterationFacts(tickBit, Normal);
      var rest := Loop<nat>(Below(limit), BreakAt(-1), n + 1, Flip(tickBit), fuel - 1);
      assert r == Prepend(Iteration(tickBit, Normal), rest);
      CountedLoop(limit, n + 1, Flip(tickBit), fuel - 1);
      CountsAppend(Iteration(tickBit, Normal), rest.events);
    } else {
      assert Below(limit)(n) == (false, n);
      CountsSingleton(Condition(false));
    }
  }

  /** Five truthy checks from bit 1 give exactly two ticks. */
  lemma FiveIterationsTickTwice()
    ensures var r := Loop(Below(5), BreakAt(-1), 0, 1, 10);
      Bodies(r.events) == 5 && Ticks(r.events) == 2 && r.exit == ConditionFalse
  {
    CountedLoop(5, 0, 1, 10);
    TickCadence(Below(5), BreakAt(-1), 0, 1, 10);
  }

  /**
   * A `break` raised by the body when the counter is `at` ends the loop in that
   * iteration: no later check, tick or body; the body ran `at - n + 1` times.
   */
  lemma {:induction false} BreakStopsLoop(limit: nat, at: nat, n: nat, tickBit: nat, fuel: nat)
    requires n <= at < limit && at < n + fuel
    ensures var r := Loop<nat>(Below(limit), BreakAt(at), n, tickBit, fuel);
      Bodies(r.events) == at - n + 1 && r.exit == BrokenOut && r.state == at + 1
    decreases at - n
  {
    var r := Loop<nat>(Below(limit), BreakAt(at), n, tickBit, fuel);
    assert Below(limit)(n) == (true, n);
    if n < at {
      assert BreakAt(at)(n) == (Normal, n + 1);
      IterationFacts(tickBit, Normal);
      var rest := Loop<nat>(Below(limit), BreakAt(at), n + 1, Flip(tickBit), fuel - 1);
      assert r == Prepend(Iteration(tickBit, Normal), rest);
      BreakStopsLoop(limit, at, n + 1, Flip(tickBit), fuel - 1);
      CountsAppend(Iteration(tickBit, Normal), rest.events);
    } else {
      assert BreakAt(at)(n) == (Break, n + 1);
      IterationFacts(tickBit, Break);
    }
  }

  /** A `break` in the third of five iterations: three bodies, one tick, and the loop ends broken. */
  lemma BreakInThirdIteration()
    ensures var r := Loop(Below(5), BreakAt(2), 0, 1, 10);
      Bodies(r.events) == 3 && Ticks(r.events) == 1 && r.exit == BrokenOut
  {
    BreakStopsLoop(5, 2, 0, 1, 10);
    TickCadence(Below(5), BreakAt(2), 0, 1, 10);
  }
}
