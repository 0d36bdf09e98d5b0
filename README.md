# AsyncDispatcher, modelled in Dafny

AsyncDispatcher is a small Swift library that runs dispatched actions one at a
time. A dispatcher owns a pipeline of postponed action items, a list of
middlewares and a busy flag, `isDispatching`.

- An action dispatched while the dispatcher is idle starts at once.
- An action dispatched while another one is under way is postponed into the
  pipeline.
- When the running action finishes, the dispatcher flushes the pipeline: it
  pops the next item and runs it. When it finds the pipeline empty, it clears
  the busy flag.
- Every action goes through `execute`. `execute` first asks every middleware for
  permission, stopping at the first refusal. If the action is allowed, it then
  fires every `willExecute` hook, runs the action, and fires every `didExecute`
  hook.

The project models the library's two core files, `Sources/AsyncDispatcher/Pipeline.swift`
and `Sources/AsyncDispatcher/Dispatcher.swift`, and proves their contracts.

- `wrappers.dfy` (module `Wrappers`): an `Option` type.
- `pipeline.dfy` (module `Pipelines`): `Pipeline` as a class over linked `Step`
  nodes.
  - Each method updates the nodes in place.
  - A ghost `Contents` sequence and a `Repr` footprint give the abstract view
    that the contracts are stated in.
  - The item a node holds is an opaque value of type `A`.
- `chain.dfy` (module `Chain`): the middleware chain of `execute`.
  - The permission check is a pure fold that returns the verdict and how many
    middlewares were asked.
  - Ghost functions describe the events that one execution produces, and the
    events of a run of executions.
  - A middleware is represented by its `shouldExecute` verdict function. Its
    hooks appear as `Will` and `Did` events in a ghost log, tagged with the
    middleware's registration index.
- `dispatcher.dfy` (module `Dispatchers`): the dispatcher as a class.
  - Its fields are `pipeline`, `middlewares`, `isDispatching` and `running`.
  - Ghost fields `Log`, `Submitted` and `Begun` record, in order, the events,
    the dispatched actions and the actions whose item has started.
  - The ghost field `LaneLog` records the events of the dispatch lane alone.
    It is `Log` without the events of direct `execute` calls.
- `scenarios.dfy` (module `Scenarios`): client runs. Two mirror the library's
  own tests. The third executes an action directly from inside a dispatched
  one, as the documentation of `execute` recommends.

**Suspension.** The only place where `dispatch` suspends is inside the action's
own operation, and other callers may dispatch while it is suspended. The model
therefore cuts a dispatched action at that point:

- `Dispatch(a)` runs up to the point where the action's operation is under way.
- `ActionFinished()` is the resumption. It fires the `didExecute` hooks and then
  runs the internal flush.
- The field `running` stands for the suspended frame.
- Concurrent dispatches become plain method calls made between these two.

**Running a popped item.** In the source, `Pipeline.flush` awaits the popped item,
and that item calls back into the dispatcher (`execute`, then the dispatcher's
`flush`). An opaque value cannot call back. So `Pipeline.Flush` hands back the
popped item, and `Dispatcher.Flush` runs it with `RunItem`. `RunItem` and `Flush`
are mutually recursive, as the item and the flush are in the source. A refused
action does not suspend, so its item goes straight on to the next flush.

**Activation.** The dispatcher code has no activation flag: `isDispatching` is
the only state besides the pipeline and the middlewares. The model follows the
code and has no activate or deactivate operation. It has no pause of the drain
either.

## Model

| member | source | states |
|---|---|---|
| Pipelines.Step.constructor | Sources/AsyncDispatcher/Pipeline.swift:28-35 | a new node holds its item and links to nothing |
| Pipelines.Pipeline.Valid | Sources/AsyncDispatcher/Pipeline.swift:41-45 | the object invariant: the nodes form an acyclic chain from `head` to `tail` holding the contents; it implies `head == nil` exactly when `tail == nil`, exactly when nothing is queued |
| Pipelines.Pipeline.constructor | Sources/AsyncDispatcher/Pipeline.swift:47 | a new pipeline is valid and empty, with no head and no tail |
| Pipelines.Pipeline.IsEmpty | Sources/AsyncDispatcher/Pipeline.swift:37-39 | answered from `head` alone; true exactly when the contents are empty |
| Pipelines.Pipeline.SetHead | Sources/AsyncDispatcher/Pipeline.swift:41-43 | assigning `head` runs its observer: a nil head also clears `tail`, and a non-nil head leaves `tail` as it was |
| Pipelines.Pipeline.Postpone | Sources/AsyncDispatcher/Pipeline.swift:50-59 | keeps the invariant; contents become the old contents followed by the item; `tail` is a newly created node that holds the item and ends the chain; on a non-empty pipeline `head` is unchanged and the old tail links to the new node |
| Pipelines.Pipeline.Flush | Sources/AsyncDispatcher/Pipeline.swift:63-70 | reports empty exactly when nothing was queued, and then hands back nothing and changes nothing; otherwise it hands back exactly the first item and leaves the rest, in order; the invariant is kept and the footprint only shrinks |
| Pipelines.Pipeline.Clear | Sources/AsyncDispatcher/Pipeline.swift:73-75 | leaves a valid, empty pipeline whose `head` and `tail` are both nil, whatever it held before; so clearing twice is the same as clearing once; nothing is handed out |
| Pipelines.Pipeline.Count | Tests/AsyncDispatcherTests/DispatcherTests.swift:12-22 | walking `next` links from `head` counts exactly the queued items |
| Pipelines.Filled | Sources/AsyncDispatcher/Pipeline.swift:50-59 | postponing items one by one into a new pipeline leaves exactly those items, in that order |
| Pipelines.Drain | Sources/AsyncDispatcher/Pipeline.swift:63-70 | flushing until the pipeline reports empty hands out exactly the queued items, front first, each once, and leaves the pipeline empty |
| Pipelines.FlushOrder | Sources/AsyncDispatcher/Pipeline.swift:50-70 | FIFO: items postponed one after another come out of successive flushes in the order they went in, each exactly once, and the pipeline ends empty |
| Chain.AskNext | Sources/AsyncDispatcher/Dispatcher.swift:66-67 | one step of the fold: a refusal already reached is kept and nobody more is asked; otherwise the middleware is asked and its answer becomes the verdict; the contract is stated in `Chain.ReduceSpec` |
| Chain.Reduce | Sources/AsyncDispatcher/Dispatcher.swift:65-68 | the `reduce(into:)` fold over the middlewares, left to right, from a given accumulator; the contract is stated in `Chain.ReduceSpec` |
| Chain.Permission | Sources/AsyncDispatcher/Dispatcher.swift:65-68 | the permission check: the fold started from "allowed, nobody asked"; the contract is stated in `Chain.PermissionSpec` |
| Chain.ReduceSpec | Sources/AsyncDispatcher/Dispatcher.swift:65-68 | the fold from any accumulator: a refusal already reached is kept; otherwise the fold asks a prefix of the middlewares ending at the first refusal, and allows exactly when all of them allow |
| Chain.PermissionSpec | Sources/AsyncDispatcher/Dispatcher.swift:65-68 | permission is granted exactly when every middleware allows, which includes the case of no middlewares; when granted every middleware was asked; when refused, the last middleware asked is the first to refuse, all before it allowed, and none behind it was asked |
| Chain.VetoedExecution | Sources/AsyncDispatcher/Dispatcher.swift:64-75 | a refused action leaves only permission requests, all from middlewares up to the refusing one: no `willExecute`, no run, no `didExecute` |
| Chain.PermittedExecution | Sources/AsyncDispatcher/Dispatcher.swift:64-75 | a permitted action's events are every permission request, then every `willExecute` in registration order, then the action exactly once, then every `didExecute` in registration order |
| Chain.TraceRuns | Sources/AsyncDispatcher/Dispatcher.swift:46-58 | across a run of complete executions, the actions invoked are exactly the permitted items, in order, each once |
| Chain.PermittedWithin | Sources/AsyncDispatcher/Dispatcher.swift:46-58 | the invoked actions are a selection of those executed: never more of them, and each one is an executed item that was permitted |
| Chain.PermittedAll | Sources/AsyncDispatcher/Dispatcher.swift:65-68 | when no middleware refuses any item, every item is let through |
| Dispatchers.Dispatcher.Valid | Sources/AsyncDispatcher/Dispatcher.swift:36 | the class invariant: the dispatcher owns its valid pipeline; the started items followed by the queued ones are exactly the submitted actions; the busy flag is set exactly while an action is under way; when the flag is clear the pipeline is empty; the action under way is the last one started and was permitted |
| Dispatchers.Dispatcher.LogIsLaneTrace | Sources/AsyncDispatcher/Dispatcher.swift:41-43 | the lane invariant: the lane log is the complete execution of every started item, one after the other, except for the `didExecute` hooks that the action under way still owes |
| Dispatchers.Dispatcher.constructor | Sources/AsyncDispatcher/Dispatcher.swift:29-36 | a new dispatcher is idle with an empty pipeline, has its middlewares, and has an empty log |
| Dispatchers.Dispatcher.Execute | Sources/AsyncDispatcher/Dispatcher.swift:64-72 | returns exactly the permission verdict; appends the permission requests the fold made and, if permitted, every `willExecute` and then the action's invocation |
| Dispatchers.Dispatcher.ExecuteFinished | Sources/AsyncDispatcher/Dispatcher.swift:73 | appends every `didExecute`, in registration order |
| Dispatchers.Dispatcher.RunItem | Sources/AsyncDispatcher/Dispatcher.swift:47-51 | the item: execute the action; a permitted action is left under way with the queue untouched; a refused one goes on to the flush, and with an empty queue the dispatcher ends idle; every item started in the call except the one left under way was refused, so the drain stops at the first permitted item; the lane invariant is restored |
| Dispatchers.Dispatcher.Flush | Sources/AsyncDispatcher/Dispatcher.swift:82-86 | clears the busy flag, with nothing new started, when the pipeline was empty; otherwise the next item started is the queue's front, and if it is permitted it is under way with the rest still queued; every item started in the call except the one left under way was refused, so the drain stops at the first permitted item, and the flag is also cleared when every item it starts is refused |
| Dispatchers.Dispatcher.Dispatch | Sources/AsyncDispatcher/Dispatcher.swift:46-58 | while busy: only appends to the pipeline; no middleware is asked, nothing runs, the flag stays set and the running action is unchanged; while idle: the action starts at once without passing through the pipeline, the flag stays set exactly if it is permitted, and both logs gain exactly its execution up to the suspension; the invariants are kept either way |
| Dispatchers.Dispatcher.Enqueue | Sources/AsyncDispatcher/Dispatcher.swift:52-53 | the busy branch: the item goes behind the queued ones; nothing else changes but the submissions and the footprint |
| Dispatchers.Dispatcher.Start | Sources/AsyncDispatcher/Dispatcher.swift:54-56 | the idle branch: the flag is set and the item runs at once; the flag stays set exactly if the action is permitted, and then that action is under way |
| Dispatchers.Dispatcher.ActionFinished | Sources/AsyncDispatcher/Dispatcher.swift:49-50 | the running action's `didExecute` hooks fire, then the flush; with an empty queue the dispatcher ends idle with every submitted action started, and both logs gain exactly those hooks; otherwise the next started item is the queue's front, and the drain stops at the first permitted queued item: every item started in the call except the one left under way was refused |
| Dispatchers.Dispatcher.RunsFollowSubmission | Sources/AsyncDispatcher/Dispatcher.swift:41-43 | items start in submission order; the actions invoked so far are exactly the permitted started items, in order, each once; when idle, that covers everything submitted |
| Dispatchers.Dispatcher.IdleRanEverything | Sources/AsyncDispatcher/Dispatcher.swift:41-43 | once idle, if nothing was refused, the invoked actions are exactly the submitted ones in submission order |
| Scenarios.BackToBackDispatches | Tests/AsyncDispatcherTests/DispatcherTests.swift:43-55 | three back-to-back dispatches: the dispatcher is busy with two items queued; the third action starts last; afterwards the dispatcher is idle with an empty pipeline |
| Scenarios.VetoedDispatch | Tests/AsyncDispatcherTests/MiddlewareTests.swift:22-34 | the returned log of an action refused by its middleware is exactly one permission request for it and contains no run; the dispatcher is left idle with nothing queued |
| Scenarios.ExecuteInsideDispatch | Sources/AsyncDispatcher/Dispatcher.swift:60-75 | a direct `execute` from inside a dispatched action runs completely, nested between the dispatched action's start and its `didExecute` hooks, whatever the middlewares say about it; the dispatched action then finishes normally and the dispatcher ends idle |

`Dispatchers.Dispatcher.Valid` and `Dispatchers.Dispatcher.LogIsLaneTrace` hold
in every state between calls. `Dispatch` and `ActionFinished` keep both. A
direct `Execute` or `ExecuteFinished` changes only `Log`, so it keeps both too.

## Left out

- Real concurrency, actor isolation and executor hops: each suspension is a
  separate method call, so interleavings are sequences of calls.
- Suspensions inside middleware hooks: there are none in the source, so there
  are none in the model.
- `[weak self]` and ARC (Sources/AsyncDispatcher/Dispatcher.swift:47-48): the
  dispatcher always exists while its items run. The no-op branch for a
  released dispatcher is not modelled.
- The effect of an action on its consumer, such as the value it writes: it is
  opaque. An action is a value, and its invocation is a `Run` event.
- Middleware protocol objects: a middleware is its verdict function. Its
  hooks return nothing and are recorded only as events. Middleware state, such
  as the mock's last-asked fields, is not modelled.
- Middleware verdicts that change over time or depend on the dispatcher: a
  verdict is a fixed function of the action alone, while in the library it is a
  method call that receives the dispatcher and may read mutable state. The
  invariant that the action under way was permitted, and the lane trace, which
  evaluates every verdict again, both rely on verdicts being fixed.
- The generic pairing of an action type with its dispatcher type: the model
  uses one abstract action type.
- `pipeline` and `middlewares` are settable in the protocol but are constants in
  the model. Replacing the pipeline or the middlewares of a running dispatcher
  is not modelled.
- Calling `clear` on a busy dispatcher's pipeline is not modelled.
  `Pipeline.Clear` is proved on its own, but the dispatcher never calls it, so
  a cleared backlog is not accounted for in `Submitted`.
- Direct `execute` calls are outside the dispatch lane. Their events go to `Log`
  but not to `LaneLog`, and the ordering guarantee covers only the lane.
- Dispatchers.Dispatcher.ActionFinished, Dispatchers.Dispatcher.Flush and
  Dispatchers.Dispatcher.RunItem: when a flush starts queued items, the
  contracts determine the new lane log, but not the new complete `Log`. The
  started items are the queue's front up to the first permitted one, and the
  lane log is their trace. `Log` gains the same events as `LaneLog` there, but
  that statement is too costly to verify. `Log` is stated exactly whenever no
  queued item is started.
- When `await dispatch(a)` returns to its caller is not modelled, and the two
  cases differ.
  - On an idle dispatcher it returns only after `a` and every item queued
    meanwhile have run, because each flush is nested inside the previous item.
  - On a busy dispatcher it returns right after `postpone`, before `a` runs.
  - `Dispatch` returns at the suspension point, and the model has no notion of
    the original caller resuming.
- The completion-handler overload of `dispatch` and the synchronous `execute`
  used in the tests: they are not in the source files of this model.
- Activation and deactivation: the source has no such operations.
- `Pipeline.flush` awaiting the popped item: the item is handed back and the
  dispatcher runs it as one of its own items.
- Foreign items postponed into a dispatcher's pipeline. `Pipeline.postpone` is
  public and `pipeline` is settable, so any item can be queued. An item that
  does not call back the dispatcher's `flush` stalls the lane: the busy flag
  stays set and every later `dispatch` is only queued. The model queues only
  the dispatcher's own items.
