/** The broadcast channel `pulseObserver` and the bindings `usePulse`
    subscribes to it: each binding keeps a snapshot of its cell's value
    and runs its optional callback through an idle, processing, finished
    state machine with a re-entrancy guard. */
module Broadcast {
  import opened Types

  // ----- Callbacks and their run state ---------------------------------

  /** How one invocation of a callback ends: with a value, or by throwing
      (for an asynchronous callback: by resolving or rejecting). */
  datatype Outcome = Returned(v: Value) | Threw

  /** The optional callback of `usePulse`, tagged by kind. A synchronous
      callback ends within its invocation; `run(n)` is how its invocation
      number `n` (counting from 0) ends. An asynchronous one ends later, at
      an explicit settle step that brings its outcome. */
  datatype Callback = Sync(run: nat -> Outcome) | Async

  /** The `result` slot a finished run leaves: the value, or null when the
      callback threw or rejected. */
  function ResultOf(o: Outcome): Value {
    match o
    case Returned(v) => v
    case Threw => Null
  }

  /** The state slots of a binding that the callback drives, and how many
      times the callback has been invoked. */
  datatype RunState = RunState(isProcessing: bool, isFinished: bool, result: Value, invocations: nat)

  /** The state of a binding just attached: `useState(false)`,
      `useState(false)`, `useState(null)`, no invocation yet. */
  const Idle := RunState(false, false, Null, 0)

  /** What a binding keeps true between steps: only a pending asynchronous
      run leaves the binding processing, and a pending run is not finished. */
  ghost predicate Consistent(s: RunState, callback: Option<Callback>) {
    s.isProcessing ==> !s.isFinished && callback.Some? && callback.value.Async?
  }

  /** The callback part of the subscriber body for one delivered envelope.
      `busy` is the flag the re-entrancy guard consults. */
  function OnDelivery(s: RunState, callback: Option<Callback>, busy: bool): (r: RunState)
    ensures busy || callback.None? ==> r == s
    ensures !busy && callback.Some? ==>
      r.invocations == s.invocations + 1
      && r.isProcessing == callback.value.Async? && r.isFinished == callback.value.Sync?
  {
    if callback.None? || busy then s
    else match callback.value
      case Sync(run) => RunState(false, true, ResultOf(run(s.invocations)), s.invocations + 1)
      case Async => RunState(true, false, s.result, s.invocations + 1)
  }

  /** The continuation of an asynchronous run: `.then`/`.catch` store the
      result, `.finally` clears the processing flag and sets the finished
      flag. */
  function OnSettle(s: RunState, outcome: Outcome): (r: RunState)
    ensures !r.isProcessing && r.isFinished && r.invocations == s.invocations
    ensures r.result == (if outcome.Threw? then Null else outcome.v)
  {
    RunState(false, true, ResultOf(outcome), s.invocations)
  }

  /** `n` deliveries in a row, the guard consulting the binding's flag as it
      stands at each delivery. */
  function DeliverRepeatedly(s: RunState, callback: Option<Callback>, n: nat): (r: RunState)
    ensures s.invocations <= r.invocations <= s.invocations + n
    decreases n
  {
    if n == 0 then s
    else DeliverRepeatedly(OnDelivery(s, callback, s.isProcessing), callback, n - 1)
  }

  /** `n` deliveries in a row as the subscriber is written: the guard
      consults the `isProcessing` captured when the subscription was made,
      and the subscription is made once, while that flag is still false. */
  function DeliverRepeatedlyAsWritten(s: RunState, callback: Option<Callback>, n: nat): (r: RunState)
    ensures callback.Some? ==> r.invocations == s.invocations + n
    ensures callback.None? ==> r == s
    decreases n
  {
    if n == 0 then s
    else DeliverRepeatedlyAsWritten(OnDelivery(s, callback, false), callback, n - 1)
  }

  /** Both steps keep a binding consistent. */
  lemma ConsistentPreserved(s: RunState, callback: Option<Callback>, outcome: Outcome)
    requires Consistent(s, callback)
    ensures Consistent(OnDelivery(s, callback, s.isProcessing), callback)
    ensures s.isProcessing ==> Consistent(OnSettle(s, outcome), callback)
  {
  }

  /** A synchronous callback has run to its end when the delivery returns:
      not processing, finished, and the result is the returned value or
      null if it threw. */
  lemma SyncRunCompletes(s: RunState, run: nat -> Outcome)
    requires Consistent(s, Some(Sync(run)))
    ensures var r := OnDelivery(s, Some(Sync(run)), s.isProcessing);
      !r.isProcessing && r.isFinished && r.invocations == s.invocations + 1
      && r.result == (if run(s.invocations).Threw? then Null else run(s.invocations).v)
  {
  }

  /** An asynchronous callback leaves the binding processing and not
      finished when the delivery returns; once it settles the binding is
      no longer processing, is finished, and holds the resolved value or
      null on rejection. */
  lemma AsyncRunSettles(s: RunState, outcome: Outcome)
    requires Consistent(s, Some(Async)) && !s.isProcessing
    ensures var r := OnDelivery(s, Some(Async), s.isProcessing);
      r.isProcessing && !r.isFinished && r.invocations == s.invocations + 1
      && var t := OnSettle(r, outcome);
         !t.isProcessing && t.isFinished && t.invocations == r.invocations
         && t.result == (if outcome.Threw? then Null else outcome.v)
  {
  }

  /** However many deliveries arrive while an asynchronous run is pending,
      the callback is not invoked again and the binding stays processing. */
  lemma {:induction false} PendingRunAbsorbsDeliveries(s: RunState, n: nat)
    requires Consistent(s, Some(Async)) && s.isProcessing
    ensures DeliverRepeatedly(s, Some(Async), n) == s
  {
    if n > 0 {
      PendingRunAbsorbsDeliveries(s, n - 1);
    }
  }

  /** From idle, `n + 1` deliveries to a binding with an asynchronous
      callback invoke it exactly once; the run stays pending until it
      settles, and then the binding is finished. */
  lemma OneInvocationPerPendingRun(s: RunState, n: nat, outcome: Outcome)
    requires Consistent(s, Some(Async)) && !s.isProcessing
    ensures var r := DeliverRepeatedly(s, Some(Async), n + 1);
      r.invocations == s.invocations + 1 && r.isProcessing && !r.isFinished
      && OnSettle(r, outcome).isFinished && !OnSettle(r, outcome).isProcessing
  {
    PendingRunAbsorbsDeliveries(OnDelivery(s, Some(Async), false), n);
  }

  /** As written, two updates in quick succession start two runs of an
      asynchronous callback where the guard is meant to allow one. */
  lemma StaleGuardRunsTwice()
    ensures DeliverRepeatedlyAsWritten(Idle, Some(Async), 2).invocations == 2
    ensures DeliverRepeatedly(Idle, Some(Async), 2).invocations == 1
  {
    OneInvocationPerPendingRun(Idle, 1, Threw);
  }

  // ----- Bindings ------------------------------------------------------

  /** One `usePulse` attachment to a cell: the snapshot `state` and the
      slots `isProcessing`, `isFinished` and `result`. */
  class Binding {
    const cell: Pulse
    const callback: Option<Callback>
    var snapshot: Value
    var isProcessing: bool
    var isFinished: bool
    var result: Value
    var invocations: nat

    function Run(): RunState
      reads this
    {
      RunState(isProcessing, isFinished, result, invocations)
    }

    ghost predicate Valid()
      reads this
    {
      Consistent(Run(), callback)
    }

    /** The state a binding starts with: the snapshot is the cell's
        default value, whatever value the cell holds by then. */
    constructor (cell: Pulse, callback: Option<Callback>)
      ensures Valid() && this.cell == cell && this.callback == callback
      ensures snapshot == cell.defaultValue && Run() == Idle
    {
      this.cell := cell;
      this.callback := callback;
      snapshot := cell.defaultValue;
      isProcessing, isFinished, result, invocations := false, false, Null, 0;
    }

    /** The subscriber body for one envelope of this binding's cell, with
        value `v`: the value goes into the cell and the snapshot, then the
        callback, if any, runs unless a run is pending. */
    method Deliver(v: Value)
      requires Valid()
      modifies this, cell
      ensures Valid()
      ensures cell.value == v && snapshot == v
      ensures Run() == OnDelivery(old(Run()), callback, old(isProcessing))
    {
      cell.value := v;
      snapshot := v;
      if callback.Some? {
        if isProcessing {
          return;
        }
        isFinished := false;
        match callback.value
        case Async =>
          isProcessing := true;
          invocations := invocations + 1;
        case Sync(run) =>
          isProcessing := true;
          var outcome := run(invocations);
          invocations := invocations + 1;
          match outcome {
            case Returned(x) => result := x;
            case Threw => result := Null;
          }
          isProcessing := false;
          isFinished := true;
      }
    }

    /** The pending asynchronous run ends with `outcome`. */
    method Settle(outcome: Outcome)
      requires Valid() && isProcessing
      modifies this
      ensures Valid() && snapshot == old(snapshot)
      ensures Run() == OnSettle(old(Run()), outcome)
    {
      match outcome {
        case Returned(x) => result := x;
        case Threw => result := Null;
      }
      isProcessing := false;
      isFinished := true;
    }
  }

  // ----- The channel ---------------------------------------------------

  /** `ls` with `b` taken out, the others in their order. */
  function Without(ls: seq<Binding>, b: Binding): seq<Binding> {
    if ls == [] then []
    else (if ls[0] == b then [] else [ls[0]]) + Without(ls[1..], b)
  }

  lemma {:induction false} WithoutAbsent(ls: seq<Binding>, b: Binding)
    requires b !in ls
    ensures Without(ls, b) == ls
  {
    if ls != [] {
      WithoutAbsent(ls[1..], b);
      assert [ls[0]] + ls[1..] == ls;
    }
  }

  lemma {:induction false} WithoutConcat(xs: seq<Binding>, ys: seq<Binding>, b: Binding)
    ensures Without(xs + ys, b) == Without(xs, b) + Without(ys, b)
  {
    if xs == [] {
      assert xs + ys == ys;
    } else {
      var zs := xs + ys;
      assert zs[0] == xs[0];
      assert zs[1..] == xs[1..] + ys;
      WithoutConcat(xs[1..], ys, b);
      assert Without(zs, b) == (if xs[0] == b then [] else [xs[0]]) + Without(xs[1..] + ys, b);
    }
  }

  /** Taking out a binding that occurs once, at `i`, closes the gap. */
  lemma WithoutAt(ls: seq<Binding>, i: nat, b: Binding)
    requires i < |ls| && ls[i] == b && b !in ls[..i] && b !in ls[i + 1..]
    ensures Without(ls, b) == ls[..i] + ls[i + 1..]
  {
    var before, after := ls[..i], ls[i + 1..];
    assert ls == before + [b] + after;
    WithoutAbsent(before, b);
    WithoutAbsent(after, b);
    WithoutConcat(before + [b], after, b);
    WithoutConcat(before, [b], b);
  }

  /** A binding that a publish did not reach: snapshot and run state as
      they were. */
  twostate predicate Untouched(b: Binding)
    reads b
  {
    b.snapshot == old(b.snapshot) && b.Run() == old(b.Run())
  }

  /** What one publish of `e` leaves of the binding `b`: if its cell has
      `e`'s id, the value is in the snapshot and the callback took one
      step; otherwise the binding is as it was. */
  twostate predicate Reached(b: Binding, e: Envelope)
    reads b
  {
    if b.cell.id == e.id then
      b.snapshot == e.value && b.Run() == OnDelivery(old(b.Run()), b.callback, old(b.isProcessing))
    else
      Untouched(b)
  }

  /** `pulseObserver`: the ordered list of current subscribers, with a
      record of every envelope published. */
  class Channel {
    var listeners: seq<Binding>
    ghost var log: seq<Envelope>

    function Members(): set<Binding>
      reads this
    {
      set b | b in listeners
    }

    function Cells(): set<Pulse>
      reads this
    {
      set b | b in listeners :: b.cell
    }

    /** Each binding subscribes at most once, and every subscriber is
        consistent. */
    ghost predicate Valid()
      reads this, Members()
    {
      (forall i, j :: 0 <= i < j < |listeners| ==> listeners[i] != listeners[j])
      && forall k :: 0 <= k < |listeners| ==> listeners[k].Valid()
    }

    constructor ()
      ensures Valid() && listeners == [] && log == []
    {
      listeners, log := [], [];
    }

    /** What one publish of `e` does to the subscribers: each is reached
        in its own way (`Reached`); the cells of `e`'s id now hold its
        value, and the other subscribers' cells keep theirs. */
    twostate predicate Fanout(e: Envelope)
      requires old(listeners) == listeners
      reads this, Members(), Cells()
    {
      forall k :: 0 <= k < |listeners| ==>
        Reached(listeners[k], e)
        && (listeners[k].cell.id == e.id ==> listeners[k].cell.value == e.value)
        && (listeners[k].cell.id != e.id ==> listeners[k].cell.value == old(listeners[k].cell.value))
    }

    /** The subscribe of the `useEffect` in `usePulse`. */
    method Subscribe(b: Binding)
      requires Valid() && b.Valid() && b !in listeners
      modifies this
      ensures Valid() && listeners == old(listeners) + [b]
      ensures log == old(log)
    {
      listeners := listeners + [b];
    }

    /** `subs.unsubscribe()`: the binding stops receiving; the other
        subscribers keep their order. */
    method Unsubscribe(b: Binding)
      requires Valid()
      modifies this
      ensures Valid() && b !in listeners
      ensures listeners == Without(old(listeners), b)
      ensures Members() == old(Members()) - {b} && Cells() <= old(Cells())
      ensures log == old(log)
    {
      var i := 0;
      while i < |listeners| && listeners[i] != b
        invariant 0 <= i <= |listeners|
        invariant b !in listeners[..i]
      {
        i := i + 1;
      }
      if i < |listeners| {
        var ls := listeners;
        assert forall k :: i < k < |ls| ==> ls[k] != b;
        WithoutAt(ls, i, b);
        listeners := ls[..i] + ls[i + 1..];
        assert forall k :: 0 <= k < |listeners| ==> listeners[k] == ls[if k < i then k else k + 1];
      } else {
        assert listeners[..i] == listeners;
        WithoutAbsent(listeners, b);
      }
    }

    /** `pulseObserver.next(e)`: delivers `e` at once, in subscription
        order, to every subscriber of `e`'s id. */
    method Publish(e: Envelope)
      requires Valid()
      modifies this, Members(), Cells()
      ensures Valid() && listeners == old(listeners)
      ensures log == old(log) + [e]
      ensures Fanout(e)
    {
      log := log + [e];
      var ls := listeners;
      ghost var done: set<Binding> := {};
      var i := 0;
      while i < |ls|
        invariant 0 <= i <= |ls|
        invariant listeners == ls == old(listeners) && log == old(log) + [e]
        invariant forall k :: 0 <= k < |ls| ==> (ls[k] in done <==> k < i)
        invariant forall b :: b in done ==> b in ls && Reached(b, e)
        invariant forall b :: b in ls && b !in done ==> Untouched(b)
        invariant forall b :: b in done && b.cell.id == e.id ==> b.cell.value == e.value
        invariant forall b :: b in ls && b.cell.id != e.id ==> b.cell.value == old(b.cell.value)
      {
        var b := ls[i];
        if b.cell.id == e.id {
          b.Deliver(e.value);
        }
        done := done + {ls[i]};
        i := i + 1;
      }
      assert ls[..i] == ls;
      forall k | 0 <= k < |ls|
        ensures ls[k].Valid()
      {
        ConsistentPreserved(old(ls[k].Run()), ls[k].callback, Threw);
      }
    }
  }
}
