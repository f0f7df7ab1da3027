/** A model of netty's `BoringSSLTask`: a run-once task that the BoringSSL engine hands out
    for work it cannot finish synchronously (certificate verification, key offload, ...).

    The module has two layers.
    - A value-level specification: `TaskState` holds the task's fields together with a log of
      what the outside world observed (dispatches of the work step, invocations of the
      secondary callbacks); `RunStep` and `DeliverStep` say what `run(completeCallback)` and
      the `TaskCallback` closure do to it; `Replay` runs a whole sequence of calls.
    - The class `BoringSSLTask`, with the source's fields, whose methods are proved against
      that specification.
    The lemmas state the run-once contract over every admissible sequence of calls. */
module SslTask {

  /** Java's `long`, used for the opaque native `SSL*` handle. */
  newtype Int64 = x: int | -0x8000_0000_0000_0000 <= x < 0x8000_0000_0000_0000

  /** Java's `int`, used for the result code handed back to BoringSSL. */
  newtype Int32 = x: int | -0x8000_0000 <= x < 0x8000_0000

  datatype Option<T> = None | Some(value: T)

  /** A `Runnable` given to `run` as the secondary notification; only its identity matters.
      `Noop` is the class's shared no-op runnable used by `run()`. */
  datatype Callback = Noop | Hook(id: nat)

  /** The abstract `runTask` of a concrete subclass: either it invokes the delivery closure
      before returning, with the given result, or it keeps the closure and fires it later
      (through `Deliver`). */
  datatype WorkStep = Immediate(result: Int32) | Deferred

  /** One call made on a task from outside: `run(cb)` with the subclass's work step, or the
      firing of the delivery closure by the work step, with the handle and result it passes. */
  datatype Call = RunCall(cb: Callback, step: WorkStep) | DeliverCall(handle: Int64, result: Int32)

  /** One invocation of `runTask`: the handle it was passed and the value of the `protected`
      field `didRun` that the subclass could read at that moment. */
  datatype TaskRun = TaskRun(handle: Int64, sawDidRun: bool)

  /** One invocation of a secondary callback, with the values of `complete` and `returnValue`
      it could read at that moment (a callback typically re-drives the engine, which reads them). */
  datatype Notice = Notice(cb: Callback, sawComplete: bool, sawResult: Int32)

  /** The task's fields plus the observable history:
      `captured`   the completeCallback captured by the delivery closure (once one exists),
      `dispatched` the invocations of `runTask`, in order,
      `deliveries` how often the delivery closure has fired,
      `requested`  the callbacks passed to `run`, in order,
      `fired`      the callback invocations, in order. */
  datatype TaskState = TaskState(
    ssl: Int64,
    didRun: bool,
    returnValue: Int32,
    complete: bool,
    captured: Option<Callback>,
    dispatched: seq<TaskRun>,
    deliveries: nat,
    requested: seq<Callback>,
    fired: seq<Notice>)

  /** The callbacks invoked, in order, forgetting what each observed. */
  function Invoked(ns: seq<Notice>): (cbs: seq<Callback>)
    ensures |cbs| == |ns|
    decreases |ns|
  {
    if ns == [] then [] else Invoked(ns[..|ns| - 1]) + [ns[|ns| - 1].cb]
  }

  lemma InvokedAppend(ns: seq<Notice>, n: Notice)
    ensures Invoked(ns + [n]) == Invoked(ns) + [n.cb]
  {
    assert (ns + [n])[..|ns|] == ns;
  }

  /** The callback a task still owes: the one captured by a closure that has not fired. */
  function Outstanding(s: TaskState): (owed: multiset<Callback>)
    ensures |owed| == (if s.captured.Some? && !s.complete then 1 else 0)
  {
    if s.captured.Some? && !s.complete then multiset{s.captured.value} else multiset{}
  }

  /** What a callback observed agrees with the task: one that saw `complete` saw the final
      result, one that did not saw the default 0. */
  predicate NoticesAgree(s: TaskState)
  {
    forall n | n in s.fired ::
      (n.sawComplete ==> s.complete && n.sawResult == s.returnValue)
      && (!n.sawComplete ==> n.sawResult == 0)
  }

  /** The invariant every reachable task keeps. */
  predicate Inv(s: TaskState)
  {
    && s.dispatched == (if s.didRun then [TaskRun(s.ssl, true)] else [])
    && (s.captured.Some? <==> s.didRun)
    && s.deliveries == (if s.complete then 1 else 0)
    && (s.complete ==> s.didRun)
    && (!s.complete ==> s.returnValue == 0)
    && (!s.didRun ==> s.requested == [])
    && multiset(Invoked(s.fired)) + Outstanding(s) == multiset(s.requested)
    && NoticesAgree(s)
  }

  /** The constructor: it only stores the handle; the other fields keep Java's defaults.
      It has no precondition and no error result: construction cannot fail. */
  function Init(ssl: Int64): (s: TaskState)
    ensures Inv(s)
    ensures s.ssl == ssl && !s.didRun && !s.complete
    ensures s.dispatched == [] && s.fired == []
  {
    TaskState(ssl, false, 0, false, None, [], 0, [], [])
  }

  /** The body of the `TaskCallback` closure: store the result, mark the task complete, then
      invoke the captured completeCallback, which sees both writes. The handle argument is not
      used. The closure has no guard of its own, so this only needs a closure to exist. */
  function DeliverStep(s: TaskState, handle: Int64, result: Int32): (t: TaskState)
    requires s.captured.Some?
  {
    var stored := s.(returnValue := result, complete := true, deliveries := s.deliveries + 1);
    stored.(fired := stored.fired + [Notice(s.captured.value, stored.complete, stored.returnValue)])
  }

  /** The first half of a first `run`: set `didRun`, then call `runTask` with the task's handle
      and a closure capturing `cb`; `runTask` sees `didRun` already set. */
  function Dispatch(s: TaskState, cb: Callback): (t: TaskState)
  {
    var marked := s.(didRun := true, captured := Some(cb), requested := s.requested + [cb]);
    marked.(dispatched := marked.dispatched + [TaskRun(marked.ssl, marked.didRun)])
  }

  /** `run(completeCallback)`: on the first call set `didRun`, then dispatch `runTask(ssl, closure)`;
      on any later call only invoke `completeCallback`, which sees the fields as they are. */
  function RunStep(s: TaskState, cb: Callback, step: WorkStep): (t: TaskState)
  {
    if !s.didRun then
      match step
      case Immediate(r) => DeliverStep(Dispatch(s, cb), s.ssl, r)
      case Deferred => Dispatch(s, cb)
    else
      s.(requested := s.requested + [cb], fired := s.fired + [Notice(cb, s.complete, s.returnValue)])
  }

  /** The closure may be fired only while it exists and has not fired yet: this is the
      work step's obligation ("invoke the callback exactly once"), not something the task checks. */
  predicate Pending(s: TaskState)
  {
    s.captured.Some? && s.deliveries == 0
  }

  predicate Enabled(s: TaskState, c: Call)
  {
    match c
    case RunCall(_, _) => true
    case DeliverCall(_, _) => Pending(s)
  }

  function Step(s: TaskState, c: Call): (t: TaskState)
    requires Enabled(s, c)
  {
    match c
    case RunCall(cb, step) => RunStep(s, cb, step)
    case DeliverCall(h, r) => DeliverStep(s, h, r)
  }

  /** Every call in `calls` is enabled in the state it meets. */
  predicate Admissible(s: TaskState, calls: seq<Call>)
    decreases |calls|
  {
    calls == [] || (Enabled(s, calls[0]) && Admissible(Step(s, calls[0]), calls[1..]))
  }

  function Replay(s: TaskState, calls: seq<Call>): (t: TaskState)
    requires Admissible(s, calls)
    decreases |calls|
  {
    if calls == [] then s else Replay(Step(s, calls[0]), calls[1..])
  }

  // ---------------------------------------------------------------------------------------
  // Properties of single calls

  /** The first `run` sets `didRun` before it dispatches the work step, dispatches it exactly
      once with the task's own handle, and captures the callback; with a synchronous work step
      the task is complete on return and the callback has fired, seeing the step's result,
      with a deferred one it is still incomplete and the callback has not fired. */
  lemma FirstRunDispatchesOnce(s: TaskState, cb: Callback, step: WorkStep)
    requires Inv(s) && !s.didRun
    ensures var t := RunStep(s, cb, step);
      && t.didRun && t.ssl == s.ssl
      && t.dispatched == [TaskRun(s.ssl, true)]
      && t.captured == Some(cb)
      && (step.Immediate? ==> t.complete && t.returnValue == step.result
                              && t.fired == [Notice(cb, true, step.result)])
      && (step.Deferred? ==> !t.complete && t.fired == [] && Pending(t))
  {
    assert Outstanding(s) == multiset{} && s.requested == [];
    assert multiset(Invoked(s.fired)) == multiset{};
    assert |s.fired| == |Invoked(s.fired)| == |multiset(Invoked(s.fired))| == 0;
  }

  /** Once `didRun` holds, `run` never dispatches again: it only invokes its callback, which
      sees the fields as they are, and the result, the completion flag and the captured
      closure stay as they were. */
  lemma RunAfterDidRunOnlyNotifies(s: TaskState, cb: Callback, step: WorkStep)
    requires s.didRun
    ensures var t := RunStep(s, cb, step);
      && t.didRun
      && t.dispatched == s.dispatched
      && t.returnValue == s.returnValue && t.complete == s.complete
      && t.captured == s.captured && t.deliveries == s.deliveries
      && t.fired == s.fired + [Notice(cb, s.complete, s.returnValue)]
  {
  }

  /** A second `run` while a deferred work step still holds the closure invokes its callback
      at once, and that callback sees the task incomplete with the default result. */
  lemma RunWhilePendingNotifiesIncomplete(s: TaskState, cb: Callback, step: WorkStep)
    requires Inv(s) && Pending(s)
    ensures var t := RunStep(s, cb, step);
      && !t.complete && Pending(t)
      && t.fired == s.fired + [Notice(cb, false, 0)]
  {
  }

  /** Delivery stores the result and marks the task complete before it invokes the callback
      captured by the first `run`, once, so that callback sees `complete` and the result;
      the handle argument makes no difference. */
  lemma DeliverStoresResultThenNotifies(s: TaskState, handle: Int64, other: Int64, result: Int32)
    requires Inv(s) && Pending(s)
    ensures var t := DeliverStep(s, handle, result);
      && t.returnValue == result && t.complete
      && t.fired == s.fired + [Notice(s.captured.value, true, result)]
      && Outstanding(t) == multiset{}
      && t == DeliverStep(s, other, result)
  {
  }

  /** `complete` only changes when the delivery closure fires, and never goes back to false. */
  lemma CompleteOnlyOnDelivery(s: TaskState, c: Call)
    requires Enabled(s, c)
    ensures s.complete ==> Step(s, c).complete
    ensures Step(s, c).complete != s.complete ==> Step(s, c).deliveries == s.deliveries + 1
    ensures Step(s, c).deliveries == s.deliveries ==> Step(s, c).complete == s.complete
  {
  }

  /** Because the closure has no guard, a second firing (a work step breaking its
      obligation) overwrites the result and invokes the captured callback a second time. */
  lemma DoubleDeliveryNotifiesTwice(s: TaskState, r1: Int32, r2: Int32)
    requires Inv(s) && Pending(s)
    ensures var t := DeliverStep(DeliverStep(s, s.ssl, r1), s.ssl, r2);
      && t.returnValue == r2
      && t.deliveries == 2
      && multiset(Invoked(t.fired)) == multiset(s.requested) + multiset{s.captured.value}
  {
    var t1 := DeliverStep(s, s.ssl, r1);
    InvokedAppend(s.fired, t1.fired[|t1.fired| - 1]);
    InvokedAppend(t1.fired, Notice(s.captured.value, true, r2));
  }

  /** Dispatching from a task that has not run leaves it valid with the closure pending. */
  lemma DispatchKeepsInv(s: TaskState, cb: Callback)
    requires Inv(s) && !s.didRun
    ensures Inv(Dispatch(s, cb)) && Pending(Dispatch(s, cb))
  {
    assert |multiset(Invoked(s.fired))| == 0;
    assert s.fired == [];
  }

  /** Delivery through a pending closure keeps the invariant. */
  lemma DeliverKeepsInv(s: TaskState, handle: Int64, result: Int32)
    requires Inv(s) && Pending(s)
    ensures Inv(DeliverStep(s, handle, result))
  {
    var t := DeliverStep(s, handle, result);
    InvokedAppend(s.fired, Notice(s.captured.value, true, result));
    forall n | n in t.fired
      ensures (n.sawComplete ==> t.complete && n.sawResult == t.returnValue)
              && (!n.sawComplete ==> n.sawResult == 0)
    {
      if n in s.fired {
        assert !n.sawComplete;
      }
    }
  }

  /** A `run` on a task that already ran keeps the invariant. */
  lemma RepeatRunKeepsInv(s: TaskState, cb: Callback, step: WorkStep)
    requires Inv(s) && s.didRun
    ensures Inv(RunStep(s, cb, step))
  {
    InvokedAppend(s.fired, Notice(cb, s.complete, s.returnValue));
  }

  /** Every enabled call keeps the invariant. */
  lemma StepKeepsInv(s: TaskState, c: Call)
    requires Inv(s) && Enabled(s, c)
    ensures Inv(Step(s, c))
  {
    match c
    case RunCall(cb, step) =>
      if !s.didRun {
        DispatchKeepsInv(s, cb);
        if step.Immediate? {
          DeliverKeepsInv(Dispatch(s, cb), s.ssl, step.result);
        }
      } else {
        RepeatRunKeepsInv(s, cb, step);
      }
    case DeliverCall(h, r) =>
      DeliverKeepsInv(s, h, r);
  }

  // ---------------------------------------------------------------------------------------
  // Properties of whole histories

  lemma {:induction false} ReplayKeepsInv(s: TaskState, calls: seq<Call>)
    requires Inv(s) && Admissible(s, calls)
    ensures Inv(Replay(s, calls))
    decreases |calls|
  {
    if calls != [] {
      StepKeepsInv(s, calls[0]);
      ReplayKeepsInv(Step(s, calls[0]), calls[1..]);
    }
  }

  /** The handle is never changed by any sequence of calls. */
  lemma {:induction false} HandleNeverChanges(s: TaskState, calls: seq<Call>)
    requires Admissible(s, calls)
    ensures Replay(s, calls).ssl == s.ssl
    decreases |calls|
  {
    if calls != [] {
      HandleNeverChanges(Step(s, calls[0]), calls[1..]);
    }
  }

  /** No sequence of calls resets `didRun`. */
  lemma {:induction false} DidRunNeverReset(s: TaskState, calls: seq<Call>)
    requires Admissible(s, calls) && s.didRun
    ensures Replay(s, calls).didRun
    decreases |calls|
  {
    if calls != [] {
      DidRunNeverReset(Step(s, calls[0]), calls[1..]);
    }
  }

  /** From construction, whatever calls follow, the work step has been dispatched at most
      once, with the constructor's handle, exactly when `didRun` is set, and always after
      `didRun` was set. */
  lemma WorkStepRunsAtMostOnce(ssl: Int64, calls: seq<Call>)
    requires Admissible(Init(ssl), calls)
    ensures var t := Replay(Init(ssl), calls);
      && |t.dispatched| <= 1
      && t.dispatched == (if t.didRun then [TaskRun(ssl, true)] else [])
  {
    ReplayKeepsInv(Init(ssl), calls);
    HandleNeverChanges(Init(ssl), calls);
  }

  /** From construction, every callback passed to `run` has been invoked exactly once, except
      the one the first `run` handed to a closure that has not fired yet; none is invoked twice
      and none is dropped. */
  lemma EveryCallbackFiresOnce(ssl: Int64, calls: seq<Call>)
    requires Admissible(Init(ssl), calls)
    ensures var t := Replay(Init(ssl), calls);
      && multiset(Invoked(t.fired)) + Outstanding(t) == multiset(t.requested)
      && |t.fired| == |t.requested| - (if Pending(t) then 1 else 0)
  {
    var t := Replay(Init(ssl), calls);
    ReplayKeepsInv(Init(ssl), calls);
    assert |multiset(Invoked(t.fired)) + Outstanding(t)| == |multiset(t.requested)|;
  }

  /** From construction, `complete` holds exactly when the delivery closure has fired (once),
      until then `returnValue` keeps its default, and every callback that saw `complete` saw
      the delivered result. */
  lemma CompleteIffDelivered(ssl: Int64, calls: seq<Call>)
    requires Admissible(Init(ssl), calls)
    ensures var t := Replay(Init(ssl), calls);
      && (t.complete <==> t.deliveries == 1)
      && t.deliveries <= 1
      && (t.complete ==> t.didRun)
      && (!t.complete ==> t.returnValue == 0)
      && (forall n | n in t.fired && n.sawComplete :: t.complete && n.sawResult == t.returnValue)
  {
    ReplayKeepsInv(Init(ssl), calls);
  }

  // ---------------------------------------------------------------------------------------
  // Scenarios

  /** `run()` twice with a synchronous work step: one dispatch, two notifications that both
      see the task complete with the step's result, and that result stored. */
  lemma RunTwiceSynchronously(ssl: Int64, r: Int32, later: WorkStep)
    ensures var t := Replay(Init(ssl), [RunCall(Noop, Immediate(r)), RunCall(Noop, later)]);
      && t.dispatched == [TaskRun(ssl, true)]
      && t.complete && t.returnValue == r
      && t.fired == [Notice(Noop, true, r), Notice(Noop, true, r)]
  {
    var calls := [RunCall(Noop, Immediate(r)), RunCall(Noop, later)];
    var t1 := RunStep(Init(ssl), Noop, Immediate(r));
    var t2 := RunStep(t1, Noop, later);
    assert calls[1..][1..] == [];
    assert Admissible(t2, calls[1..][1..]);
    assert Admissible(t1, calls[1..]);
    assert Replay(t2, calls[1..][1..]) == t2;
    assert Replay(t1, calls[1..]) == t2;
    assert Replay(Init(ssl), calls) == t2;
  }

  /** `run()` with a deferred work step: incomplete when `run` returns and nothing notified;
      after the closure fires with `r`, complete, `r` stored, and one notification in total,
      which sees `r`. */
  lemma DeferredCompletesOnDelivery(ssl: Int64, r: Int32)
    ensures var t1 := RunStep(Init(ssl), Noop, Deferred);
      && !t1.complete && t1.fired == [] && Pending(t1)
      && var t2 := DeliverStep(t1, ssl, r);
         && t2.complete && t2.returnValue == r
         && t2.fired == [Notice(Noop, true, r)] && t2.dispatched == [TaskRun(ssl, true)]
  {
  }

  // ---------------------------------------------------------------------------------------
  // The class

  /** The task object. `ssl` is final; `didRun`, `returnValue` and `complete` are the mutable
      fields of the source (the latter two read by native code). The ghost fields hold the
      state of the delivery closure and the history a caller can observe; each logged event
      records the fields as they are when it happens. */
  class BoringSSLTask {
    const ssl: Int64
    var didRun: bool
    var returnValue: Int32
    var complete: bool
    ghost var captured: Option<Callback>
    ghost var dispatched: seq<TaskRun>
    ghost var deliveries: nat
    ghost var requested: seq<Callback>
    ghost var fired: seq<Notice>

    ghost function State(): (s: TaskState)
      reads this
    {
      TaskState(ssl, didRun, returnValue, complete, captured, dispatched, deliveries, requested, fired)
    }

    ghost predicate Valid()
      reads this
    {
      Inv(State())
    }

    /** Stores the handle and nothing else; cannot fail. */
    constructor (ssl: Int64)
      ensures Valid() && State() == Init(ssl)
      ensures this.ssl == ssl && !didRun && !complete
    {
      this.ssl := ssl;
      didRun := false;
      returnValue := 0;
      complete := false;
      captured := None;
      dispatched := [];
      deliveries := 0;
      requested := [];
      fired := [];
    }

    /** The `TaskCallback` closure firing with `(handle, result)`. Firing it once is the work
        step's obligation, hence the precondition; the closure itself checks nothing. */
    method Deliver(handle: Int64, result: Int32)
      requires Valid() && Pending(State())
      modifies this
      ensures Valid() && State() == DeliverStep(old(State()), handle, result)
      ensures returnValue == result && complete && didRun
      ensures fired == old(fired) + [Notice(old(captured).value, true, result)]
    {
      returnValue := result;
      complete := true;
      deliveries := deliveries + 1;
      // completeCallback.run()
      fired := fired + [Notice(captured.value, complete, returnValue)];
      DeliverKeepsInv(old(State()), handle, result);
    }

    /** `run(completeCallback)`, with the subclass's `runTask` given as `step`. */
    method RunWith(completeCallback: Callback, step: WorkStep)
      requires Valid()
      modifies this
      ensures Valid() && State() == RunStep(old(State()), completeCallback, step)
      ensures didRun
      ensures old(didRun) ==> dispatched == old(dispatched) && returnValue == old(returnValue)
                              && complete == old(complete)
                              && fired == old(fired) + [Notice(completeCallback, complete, returnValue)]
      ensures !old(didRun) ==> dispatched == [TaskRun(ssl, true)] && (complete <==> step.Immediate?)
    {
      ghost var before := State();
      if !didRun {
        didRun := true;
        CallRunTask(completeCallback, step);
      } else {
        RepeatRunKeepsInv(before, completeCallback, step);
        requested := requested + [completeCallback];
        // completeCallback.run()
        fired := fired + [Notice(completeCallback, complete, returnValue)];
        assert State() == RunStep(before, completeCallback, step);
      }
    }

    /** `runTask(ssl, closure)` as called by the first `run`, once `didRun` has been set on a
        task that had not run: the closure captures `completeCallback`, the subclass's work
        step receives the handle and can read `didRun`, and a synchronous step fires the closure
        before returning. Afterwards the whole first `run` has taken effect. */
    method CallRunTask(completeCallback: Callback, step: WorkStep)
      requires didRun && Inv(State().(didRun := false))
      modifies this
      ensures Valid() && State() == RunStep(old(State()).(didRun := false), completeCallback, step)
      ensures dispatched == [TaskRun(ssl, true)]
    {
      ghost var before := old(State()).(didRun := false);
      DispatchKeepsInv(before, completeCallback);
      requested := requested + [completeCallback];
      captured := Some(completeCallback);
      // runTask(ssl, closure)
      dispatched := dispatched + [TaskRun(ssl, didRun)];
      assert State() == Dispatch(before, completeCallback);
      match step {
        case Immediate(r) =>
          Deliver(ssl, r);
          assert State() == RunStep(before, completeCallback, step);
        case Deferred =>
          assert State() == RunStep(before, completeCallback, step);
      }
    }

    /** `run()`: `run` with the shared no-op callback. */
    method Run(step: WorkStep)
      requires Valid()
      modifies this
      ensures Valid() && State() == RunStep(old(State()), Noop, step)
      ensures didRun
    {
      RunWith(Noop, step);
    }
  }

  /** A client of the class: a fresh task run twice with a synchronous work step ends
      complete with the step's result, after one dispatch and two notifications. */
  method RunTwiceOnTask(ssl: Int64, r: Int32) returns (complete: bool, returnValue: Int32, ghost dispatches: nat, ghost notifications: nat)
    ensures complete && returnValue == r
    ensures dispatches == 1 && notifications == 2
  {
    var task := new BoringSSLTask(ssl);
    task.Run(Immediate(r));
    task.Run(Immediate(r));
    complete, returnValue := task.complete, task.returnValue;
    dispatches, notifications := |task.dispatched|, |task.fired|;
  }
}
