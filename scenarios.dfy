/**
 * Client runs of the dispatcher. The first two follow the library's own tests,
 * with strings as actions: the value a "set value" action writes into its
 * consumer. The third is the use of `execute` that the library recommends.
 */
module Scenarios {
  import opened Wrappers
  import opened Chain
  import opened Dispatchers

  /**
   * Three actions are dispatched back to back while the first one is still
   * running. The second and third wait in the pipeline and start one after the
   * other, in submission order, as their predecessors finish: the last action
   * to start, and so the last value written, is the third one. Once all three
   * have finished, the dispatcher is idle with an empty pipeline.
   */
  method BackToBackDispatches() returns (queuedWhileBusy: nat, busyWhileRunning: bool, lastStarted: string, idleAtEnd: bool)
    ensures queuedWhileBusy == 2
    ensures busyWhileRunning
    ensures lastStarted == "async test finish"
    ensures idleAtEnd
  {
    var logger := Middleware((s: string) => true);
    assert forall x :: Permission([logger], x).allowed by {
      forall x { PermissionSpec([logger], x); }
    }
    var d := new Dispatcher<string>([logger]);
    d.Dispatch("async test");
    assert d.running == Some("async test") && d.pipeline.Contents == [];
    d.Dispatch("async test after");
    d.Dispatch("async test finish");
    assert d.pipeline.Contents == ["async test after", "async test finish"];
    queuedWhileBusy := d.pipeline.Count();
    busyWhileRunning := d.isDispatching;
    d.ActionFinished();
    assert d.running == Some("async test after") && d.pipeline.Contents == ["async test finish"];
    d.ActionFinished();
    assert d.running == Some("async test finish") && d.pipeline.Contents == [];
    lastStarted := d.running.value;
    d.ActionFinished();
    idleAtEnd := !d.isDispatching && d.pipeline.IsEmpty();
  }

  /**
   * A middleware that refuses everything: the dispatched action is asked
   * about, and that is all that happens. No hook fires after the permission
   * check and the action never runs. The dispatcher is left idle.
   */
  method VetoedDispatch() returns (busy: bool, queued: nat, ghost log: seq<Event<string>>)
    ensures !busy && queued == 0
    ensures log == [Ask(0, "test")] && Runs(log) == []
  {
    var refuser := Middleware((s: string) => false);
    PermissionSpec([refuser], "test");
    var d := new Dispatcher<string>([refuser]);
    d.Dispatch("test");
    log := d.Log;
    busy := d.isDispatching;
    queued := d.pipeline.Count();
  }

  /**
   * An action under way executes another action directly, as the library
   * recommends for work that must not wait in the pipeline. The direct
   * execution runs at once and completely, in the middle of the dispatched one,
   * whether the middlewares permit it or not. The dispatch lane carries on: the
   * dispatched action still finishes normally and the dispatcher ends idle.
   */
  method ExecuteInsideDispatch<A>(middlewares: seq<Middleware<A>>, outer: A, inner: A)
    returns (nested: bool, idleAtEnd: bool, ghost log: seq<Event<A>>)
    requires Permission(middlewares, outer).allowed
    ensures nested <==> Permission(middlewares, inner).allowed
    ensures idleAtEnd
    ensures log == ExecutionStart(middlewares, outer) + Execution(middlewares, inner) + ExecutionEnd(middlewares, outer)
  {
    var d := new Dispatcher<A>(middlewares);
    d.Dispatch(outer);
    ghost var start := ExecutionStart(middlewares, outer);
    assert d.Log == start;
    nested := d.Execute(inner);
    if nested {
      d.ExecuteFinished(inner);
    }
    assert d.Log == start + Execution(middlewares, inner) && d.pipeline.Contents == [];
    d.ActionFinished();
    idleAtEnd := !d.isDispatching;
    log := d.Log;
  }
}
