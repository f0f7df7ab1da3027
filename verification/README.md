# BoringSSLTask, modelled in Dafny

netty's QUIC codec drives the BoringSSL engine through JNI. When the engine cannot finish a
handshake step by itself (verifying a certificate, signing with an offloaded key, ...) it hands
out a `BoringSSLTask`: a run-once unit of work bound to the connection's native `SSL*` handle
(`ssl`, a Java `long`). Its first `run(completeCallback)` sets the `didRun` guard and dispatches
the subclass's `runTask(ssl, callback)`. The callback closure stores the result code in
`returnValue`, sets `complete` (both read back by native code) and then invokes
`completeCallback`. Every later `run` only invokes its `completeCallback`. `run()` is `run` with
a shared no-op runnable.

`task.dfy` (module `SslTask`) models this in two layers:

- a value-level specification. `TaskState` holds the four fields of the class. It also holds a
  log of what callers can observe: the callback captured by the delivery closure, how often that
  closure fired and the callbacks passed to `run`. It logs each `runTask` call with the
  handle passed and the value of `didRun` it could read (`TaskRun`), and each callback
  invocation with the values of `complete` and `returnValue` it could read (`Notice`). These
  logs fix the order of events inside a call: `didRun` is set before `runTask` is called, and
  the result fields are written before the callback runs. `Init`, `RunStep` and `DeliverStep`
  give the constructor, `run(completeCallback)` and the closure. `Replay` applies a whole
  sequence of calls. `Inv` is the invariant every reachable task keeps.
- the class `BoringSSLTask` with the source's fields. `ssl` is a `const`. `didRun`,
  `returnValue` and `complete` are mutable. Ghost fields hold the closure's captured callback
  and the observation log. Its methods are proved against the specification functions:
  `RunWith` (`run(Runnable)`), `CallRunTask` (its call of `runTask`), `Run` (`run()`) and
  `Deliver` (the `TaskCallback.onResult` closure). Each logged event records the fields as the
  method body has them at that point, so moving a field write across a logged event breaks the
  proofs. The order of two writes with no logged event between them is not captured.

The abstract `runTask` is a parameter `WorkStep`. `Immediate(result)` fires the closure before
`runTask` returns. `Deferred` keeps it, and the caller fires it later through `Deliver`.
`Runnable`s are labels (`Callback = Noop | Hook(id)`); invoking one appends it to the log.
Java's `long` and `int` are the newtypes `Int64` and `Int32`.

The closure has no guard of its own. The obligation that the work step fires it exactly once is
a precondition of `Deliver`, expressed by the predicate `Pending`. It is not a check inside the
task. `DoubleDeliveryNotifiesTwice` shows what a second firing would do.

## Model

| member | source | states |
|---|---|---|
| `SslTask.Init` | codec-classes-quic/src/main/java/io/netty/incubator/codec/quic/BoringSSLTask.java:25-35 | construction is total (no precondition, no error) and stores the handle; `didRun` and `complete` are false, nothing dispatched or notified, and the invariant holds |
| `SslTask.BoringSSLTask.constructor` | codec-classes-quic/src/main/java/io/netty/incubator/codec/quic/BoringSSLTask.java:32-35 | the object's state is `Init(ssl)`: `ssl` is the argument, `didRun == false`, `complete == false`, and the object is valid |
| `SslTask.BoringSSLTask.RunWith` | codec-classes-quic/src/main/java/io/netty/incubator/codec/quic/BoringSSLTask.java:42-53 | the new state is `RunStep` of the old; `didRun` holds afterwards; on a task that already ran, nothing is dispatched, `returnValue` and `complete` are unchanged and `completeCallback` is invoked once, seeing the current `complete` and `returnValue`; on a fresh task the work step is dispatched once with `ssl` after `didRun` was set, and `complete` holds on return exactly for a synchronous work step |
| `SslTask.BoringSSLTask.CallRunTask` | codec-classes-quic/src/main/java/io/netty/incubator/codec/quic/BoringSSLTask.java:44-49 | called only once `didRun` is set on a task that had not run; dispatches `runTask` with `ssl`, recording that it sees `didRun == true`, with a closure capturing `completeCallback`; afterwards the state is that of the whole first `run` |
| `SslTask.BoringSSLTask.Run` | codec-classes-quic/src/main/java/io/netty/incubator/codec/quic/BoringSSLTask.java:37-40 | the new state is `RunStep` of the old with the no-op callback, i.e. `run()` is `run(NOOP)` |
| `SslTask.BoringSSLTask.Deliver` | codec-classes-quic/src/main/java/io/netty/incubator/codec/quic/BoringSSLTask.java:45-49 | given a closure that has not fired yet, firing it sets `returnValue := result` and `complete := true`, and then invokes the captured callback once; that callback sees `complete == true` and `result`; the object stays valid |
| `SslTask.FirstRunDispatchesOnce` | codec-classes-quic/src/main/java/io/netty/incubator/codec/quic/BoringSSLTask.java:43-49 | the first `run` sets `didRun` before it dispatches `runTask`, dispatches it exactly once with the task's own handle and captures the callback; a synchronous step leaves the task complete with its result and the callback fired, seeing that result; a deferred step leaves it incomplete, nothing fired, the closure pending |
| `SslTask.RunAfterDidRunOnlyNotifies` | codec-classes-quic/src/main/java/io/netty/incubator/codec/quic/BoringSSLTask.java:50-52 | once `didRun` holds, `run` dispatches nothing, leaves `returnValue`, `complete` and the closure unchanged, and only invokes its callback, which sees the fields as they are |
| `SslTask.RunWhilePendingNotifiesIncomplete` | codec-classes-quic/src/main/java/io/netty/incubator/codec/quic/BoringSSLTask.java:50-52 | a `run` while a deferred step still holds the closure invokes its callback at once, and that callback sees `complete == false` and `returnValue == 0`; the closure stays pending |
| `SslTask.DeliverStoresResultThenNotifies` | codec-classes-quic/src/main/java/io/netty/incubator/codec/quic/BoringSSLTask.java:45-48 | delivery stores the result and marks the task complete before it invokes the callback captured by the first `run`, once, so that callback sees `complete` and the result; none is left outstanding; the closure's handle argument has no effect |
| `SslTask.CompleteOnlyOnDelivery` | codec-classes-quic/src/main/java/io/netty/incubator/codec/quic/BoringSSLTask.java:29-47 | across any call, `complete` never returns to false and changes only in a call in which the delivery closure fires |
| `SslTask.DoubleDeliveryNotifiesTwice` | codec-classes-quic/src/main/java/io/netty/incubator/codec/quic/BoringSSLTask.java:45-49 | the closure has no guard: firing it twice overwrites the result and invokes the captured callback a second time, one more invocation than callbacks passed to `run` |
| `SslTask.DispatchKeepsInv` | codec-classes-quic/src/main/java/io/netty/incubator/codec/quic/BoringSSLTask.java:43-45 | setting `didRun` and dispatching on a fresh task keeps the invariant and leaves the closure pending |
| `SslTask.DeliverKeepsInv` | codec-classes-quic/src/main/java/io/netty/incubator/codec/quic/BoringSSLTask.java:45-49 | firing a pending closure keeps the invariant, including that every callback that saw `complete` saw the final result |
| `SslTask.RepeatRunKeepsInv` | codec-classes-quic/src/main/java/io/netty/incubator/codec/quic/BoringSSLTask.java:50-52 | a `run` on a task that already ran keeps the invariant |
| `SslTask.StepKeepsInv` | codec-classes-quic/src/main/java/io/netty/incubator/codec/quic/BoringSSLTask.java:42-53 | every `run` call and every permitted closure firing keeps the invariant |
| `SslTask.ReplayKeepsInv` | codec-classes-quic/src/main/java/io/netty/incubator/codec/quic/BoringSSLTask.java:42-53 | every admissible sequence of calls keeps the invariant |
| `SslTask.HandleNeverChanges` | codec-classes-quic/src/main/java/io/netty/incubator/codec/quic/BoringSSLTask.java:25 | no sequence of calls changes `ssl` |
| `SslTask.DidRunNeverReset` | codec-classes-quic/src/main/java/io/netty/incubator/codec/quic/BoringSSLTask.java:43-44 | once set, `didRun` stays true after any sequence of calls |
| `SslTask.WorkStepRunsAtMostOnce` | codec-classes-quic/src/main/java/io/netty/incubator/codec/quic/BoringSSLTask.java:43-45 | from construction, after any calls, `runTask` has been dispatched at most once, with the constructor's handle, exactly when `didRun` is set, and it saw `didRun` already true |
| `SslTask.EveryCallbackFiresOnce` | codec-classes-quic/src/main/java/io/netty/incubator/codec/quic/BoringSSLTask.java:45-52 | from construction, the invoked callbacks plus the one held by an unfired closure are exactly the callbacks passed to `run` (as multisets), so each is invoked once, none twice and none dropped; the count of invocations is the count of `run` calls, less one while the closure is pending |
| `SslTask.CompleteIffDelivered` | codec-classes-quic/src/main/java/io/netty/incubator/codec/quic/BoringSSLTask.java:29-47 | from construction, `complete` holds exactly when the closure has fired, which is at most once, only after `didRun`; until then `returnValue` keeps its default 0; every callback that saw `complete` saw the stored result |
| `SslTask.RunTwiceSynchronously` | codec-classes-quic/src/main/java/io/netty/incubator/codec/quic/BoringSSLTask.java:37-53 | `run()` twice, the first with a synchronous step: one dispatch, `complete`, `returnValue` is the step's result, two no-op notifications that both see the task complete with that result |
| `SslTask.DeferredCompletesOnDelivery` | codec-classes-quic/src/main/java/io/netty/incubator/codec/quic/BoringSSLTask.java:42-49 | `run()` with a deferred step returns with `complete == false` and nothing notified; after the closure fires with `r` the task is complete with `r` and one notification in total, which sees `r` |
| `SslTask.RunTwiceOnTask` | codec-classes-quic/src/main/java/io/netty/incubator/codec/quic/BoringSSLTask.java:37-53 | the same scenario on a fresh object through the class's methods: complete, result stored, one dispatch, two notifications |

## Left out

- JNI: native code reads `returnValue` and `complete` and obtains tasks through `SSL_getTask`. That engine is foreign code; the model exposes the two fields and nothing reads them.
- Concurrency: the fields are plain, non-volatile Java fields. Cross-thread visibility, and the atomicity of the `didRun` check-and-set, are not modelled. The model is sequential. Since only a concurrent reader (native code) could tell them apart, the order of the closure's two writes, `returnValue` before `complete`, is not captured either: `Deliver` would verify with them swapped.
- Writes to `didRun` from outside the class: the field is `protected`, so a subclass or another class in the package could reset it. The model's work step cannot write it, and `DidRunNeverReset` and `WorkStepRunsAtMostOnce` hold under that assumption.
- Concrete `runTask` subclasses (certificate verification, key offload, ...) are not part of this model. They are the `WorkStep` parameter: either the closure fires before `runTask` returns, or it fires later through `Deliver`.
- `Runnable` objects: only their identity and the fact that they were invoked are modelled. What a callback does when invoked is not modelled, including a callback that calls `run` again from inside the closure.
- Exceptions thrown by `runTask` or by a callback are not modelled. The work step is taken to report failure as a result code.
- The closure only writes `returnValue` and `complete` and then invokes `completeCallback`. Native code reads the two fields itself, so the model has no separate step that pushes the result to the engine.
