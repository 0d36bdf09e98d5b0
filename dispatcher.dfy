/**
 * The dispatcher: the coordinator that runs one dispatched action at a time
 * and queues the others in its pipeline.
 *
 * An action's own operation is the only place where the library suspends, and
 * other callers may dispatch while it is suspended. So the model splits a
 * dispatched action in two at that point. `Dispatch` runs up to the point where
 * the operation is under way. `ActionFinished` resumes once the operation has
 * completed: it runs the `didExecute` hooks, then the internal flush. The field
 * `running` stands for that suspended frame.
 */
module Dispatchers {
  import opened Wrappers
  import opened Chain
  import opened Pipelines

  class Dispatcher<A> {
    const pipeline: Pipeline<A>
    const middlewares: seq<Middleware<A>>
    var isDispatching: bool
    /** The dispatched action whose operation is under way, if any. */
    var running: Option<A>

    // Every hook call and action invocation, in order.
    ghost var Log: seq<Event<A>>
    // The events of the dispatch lane alone: `Log` without direct `Execute` calls.
    ghost var LaneLog: seq<Event<A>>
    // Every dispatched action, in submission order.
    ghost var Submitted: seq<A>
    // The dispatched actions whose item has started, in the order they started.
    ghost var Begun: seq<A>
    ghost var Repr: set<object>

    /** Ownership: the dispatcher owns its pipeline and its pipeline's nodes. */
    ghost predicate Framed()
      reads this`Repr, Repr - {this}
    {
      && this in Repr && pipeline in Repr
      && pipeline.Repr <= Repr && this !in pipeline.Repr
      && pipeline.Valid()
    }

    /**
     * The object invariant. Items start in submission order: the started ones
     * followed by the queued ones are everything submitted. The busy flag is
     * set exactly while a dispatched action is under way. When the flag is
     * clear, nothing is queued.
     */
    ghost predicate Valid()
      reads this`Repr, this`Submitted, this`Begun, this`isDispatching, this`running, Repr - {this}
    {
      && Framed()
      && Submitted == Begun + pipeline.Contents
      && (isDispatching <==> running.Some?)
      && (!isDispatching ==> pipeline.Contents == [])
      && (running.Some? ==>
            && Begun != [] && running.value == Begun[|Begun| - 1]
            && Permission(middlewares, running.value).allowed)
    }

    /** The `didExecute` hooks that the action under way still owes. */
    ghost function Pending(): seq<Event<A>>
      reads this`running
    {
      if running.Some? then Dids(|middlewares|, running.value) else []
    }

    /**
     * What the dispatch lane has done so far. Each started item was executed
     * completely, one after the other, except that the action under way has not
     * yet had its `didExecute` hooks. A direct `Execute` call is outside the
     * lane: its events go to `Log` only, so it leaves this untouched.
     */
    ghost predicate LogIsLaneTrace()
      reads this`LaneLog, this`running, this`Begun
    {
      LaneLog + Pending() == Trace(middlewares, Begun)
    }

    constructor (middlewares: seq<Middleware<A>>)
      ensures Valid() && LogIsLaneTrace() && fresh(Repr)
      ensures this.middlewares == middlewares
      ensures !isDispatching && pipeline.Contents == []
      ensures Log == [] && LaneLog == [] && Submitted == []
    {
      this.middlewares := middlewares;
      pipeline := new Pipeline<A>();
      isDispatching := false;
      running := None;
      Log, LaneLog, Submitted, Begun := [], [], [], [];
      new;
      Repr := {this} + pipeline.Repr;
    }

    /**
     * `execute`, up to its suspension point. It asks the middlewares for
     * permission, short-circuiting at the first refusal. If the action is
     * permitted, it fires every `willExecute` hook and then invokes the action.
     */
    method Execute(a: A) returns (permitted: bool)
      modifies this`Log
      ensures permitted == Permission(middlewares, a).allowed
      ensures Log == old(Log) + ExecutionStart(middlewares, a)
      ensures old(Valid()) ==> Valid()
      ensures old(LogIsLaneTrace()) ==> LogIsLaneTrace()
    {
      var verdict := Permission(middlewares, a);
      Log := Log + Asks(verdict.asked, a);
      permitted := verdict.allowed;
      if permitted {
        for i := 0 to |middlewares|
          invariant Log == old(Log) + Asks(verdict.asked, a) + Wills(i, a)
        {
          assert Wills(i + 1, a) == Wills(i, a) + [Will(i, a)];
          Log := Log + [Will(i, a)];
        }
        Log := Log + [Run(a)];
      }
    }

    /** `execute`, after the permitted action's operation has completed: every `didExecute` hook. */
    method ExecuteFinished(a: A)
      requires Permission(middlewares, a).allowed
      modifies this`Log
      ensures Log == old(Log) + ExecutionEnd(middlewares, a)
      ensures old(Valid()) ==> Valid()
      ensures old(LogIsLaneTrace()) ==> LogIsLaneTrace()
    {
      for i := 0 to |middlewares|
        invariant Log == old(Log) + Dids(i, a)
      {
        assert Dids(i + 1, a) == Dids(i, a) + [Did(i, a)];
        Log := Log + [Did(i, a)];
      }
    }

    /**
     * The item that `dispatch` builds for `a`, up to the action's suspension:
     * execute `a`. A refused action does not suspend, so the item goes on
     * straight to the flush.
     */
    method RunItem(a: A, ghost before: seq<A>)
      requires Framed() && isDispatching && running == None
      requires Submitted == Begun + pipeline.Contents
      requires Begun == before + [a]
      requires LaneLog == Trace(middlewares, before)
      modifies Repr
      ensures Valid() && LogIsLaneTrace() && Repr == old(Repr)
      ensures Submitted == old(Submitted) && old(Begun) <= Begun
      ensures old(LaneLog) + ExecutionStart(middlewares, a) <= LaneLog
      ensures Permission(middlewares, a).allowed ==>
                running == Some(a) && Begun == old(Begun) && pipeline.Contents == old(pipeline.Contents)
      ensures !Permission(middlewares, a).allowed && old(pipeline.Contents) == [] ==>
                !isDispatching && Begun == old(Begun)
      ensures Permission(middlewares, a).allowed || old(pipeline.Contents) == [] ==>
                && LaneLog == old(LaneLog) + ExecutionStart(middlewares, a)
                && Log == old(Log) + ExecutionStart(middlewares, a)
      ensures forall k :: |old(Begun)| <= k < |Begun| && (running.None? || k < |Begun| - 1) ==>
                !Permission(middlewares, Begun[k]).allowed
      decreases |pipeline.Contents|, 1
    {
      var permitted := Execute(a);
      LaneLog := LaneLog + ExecutionStart(middlewares, a);
      TraceStarting(middlewares, before, a, LaneLog);
      if permitted {
        running := Some(a);
      } else {
        assert ExecutionEnd(middlewares, a) == [];
        Flush();
      }
    }

    /**
     * The internal `flush`. If the pipeline turns out to be empty, the busy
     * flag is cleared. Otherwise the next queued item is started, and the flag
     * stays set for it.
     */
    method Flush()
      requires Framed() && isDispatching && running == None
      requires Submitted == Begun + pipeline.Contents
      requires LaneLog == Trace(middlewares, Begun)
      modifies Repr
      ensures Valid() && LogIsLaneTrace() && Repr == old(Repr)
      ensures Submitted == old(Submitted) && old(Begun) <= Begun
      ensures old(LaneLog) <= LaneLog
      ensures old(pipeline.Contents) == [] ==>
                !isDispatching && Begun == old(Begun) && LaneLog == old(LaneLog) && Log == old(Log)
      ensures old(pipeline.Contents) != [] ==>
                |old(Begun)| < |Begun| && Begun[|old(Begun)|] == old(pipeline.Contents)[0]
      ensures old(pipeline.Contents) != [] && Permission(middlewares, old(pipeline.Contents)[0]).allowed ==>
                running == Some(old(pipeline.Contents)[0]) && pipeline.Contents == old(pipeline.Contents)[1..]
      ensures forall k :: |old(Begun)| <= k < |Begun| && (running.None? || k < |Begun| - 1) ==>
                !Permission(middlewares, Begun[k]).allowed
      decreases |pipeline.Contents|, 0
    {
      var empty, next := pipeline.Flush();
      if empty {
        isDispatching := false;
      } else {
        Begun := Begun + [next.value];
        RunItem(next.value, old(Begun));
      }
    }

    /**
     * `dispatch`. While an action is under way, the new action is only queued:
     * no middleware is asked and the action does not run. Otherwise the flag is
     * set and the action's item starts at once, without going through the
     * pipeline.
     */
    method Dispatch(a: A)
      requires Valid() && LogIsLaneTrace()
      modifies Repr
      ensures Valid() && LogIsLaneTrace() && fresh(Repr - old(Repr))
      ensures Submitted == old(Submitted) + [a]
      ensures old(isDispatching) ==>
                && isDispatching && running == old(running)
                && pipeline.Contents == old(pipeline.Contents) + [a]
                && Log == old(Log) && LaneLog == old(LaneLog) && Begun == old(Begun)
      ensures !old(isDispatching) ==>
                && pipeline.Contents == []
                && Begun == old(Begun) + [a]
                && LaneLog == old(LaneLog) + ExecutionStart(middlewares, a)
                && Log == old(Log) + ExecutionStart(middlewares, a)
                && (isDispatching <==> Permission(middlewares, a).allowed)
                && (isDispatching ==> running == Some(a))
    {
      if isDispatching {
        Enqueue(a);
      } else {
        Start(a);
      }
    }

    /** The busy branch of `dispatch`: the action's item is postponed behind the queued ones. */
    method Enqueue(a: A)
      requires Valid() && LogIsLaneTrace() && isDispatching
      modifies Repr
      ensures Valid() && LogIsLaneTrace() && fresh(Repr - old(Repr))
      ensures Submitted == old(Submitted) + [a]
      ensures isDispatching && running == old(running)
      ensures pipeline.Contents == old(pipeline.Contents) + [a]
      ensures Log == old(Log) && LaneLog == old(LaneLog) && Begun == old(Begun)
    {
      pipeline.Postpone(a);
      Submitted := Submitted + [a];
      Repr := Repr + pipeline.Repr;
    }

    /** The idle branch of `dispatch`: the flag is set and the action's item runs at once. */
    method Start(a: A)
      requires Valid() && LogIsLaneTrace() && !isDispatching
      modifies Repr
      ensures Valid() && LogIsLaneTrace() && Repr == old(Repr)
      ensures Submitted == old(Submitted) + [a]
      ensures pipeline.Contents == []
      ensures Begun == old(Begun) + [a]
      ensures LaneLog == old(LaneLog) + ExecutionStart(middlewares, a)
      ensures Log == old(Log) + ExecutionStart(middlewares, a)
      ensures isDispatching <==> Permission(middlewares, a).allowed
      ensures isDispatching ==> running == Some(a)
    {
      isDispatching := true;
      Submitted := Submitted + [a];
      Begun := Begun + [a];
      RunItem(a, old(Begun));
      TraceStarted(middlewares, old(Begun), a, LaneLog);
    }

    /**
     * The dispatched action's operation has completed. Its item resumes: the
     * `didExecute` hooks fire, then the internal flush runs. After the last
     * queued action the dispatcher is idle, and everything submitted has started.
     */
    method ActionFinished()
      requires Valid() && LogIsLaneTrace() && running.Some?
      modifies Repr
      ensures Valid() && LogIsLaneTrace() && Repr == old(Repr)
      ensures Submitted == old(Submitted) && old(Begun) <= Begun
      ensures old(LaneLog) + Dids(|middlewares|, old(running).value) <= LaneLog
      ensures old(pipeline.Contents) == [] ==>
                && !isDispatching && Begun == Submitted
                && LaneLog == old(LaneLog) + Dids(|middlewares|, old(running).value)
                && Log == old(Log) + Dids(|middlewares|, old(running).value)
      ensures old(pipeline.Contents) != [] ==>
                |old(Begun)| < |Begun| && Begun[|old(Begun)|] == old(pipeline.Contents)[0]
      ensures old(pipeline.Contents) != [] && Permission(middlewares, old(pipeline.Contents)[0]).allowed ==>
                && running == Some(old(pipeline.Contents)[0])
                && pipeline.Contents == old(pipeline.Contents)[1..]
      ensures forall k :: |old(Begun)| <= k < |Begun| && (running.None? || k < |Begun| - 1) ==>
                !Permission(middlewares, Begun[k]).allowed
    {
      var a := running.value;
      ExecuteFinished(a);
      LaneLog := LaneLog + ExecutionEnd(middlewares, a);
      running := None;
      Flush();
    }

    /**
     * The dispatch lane never reorders or repeats anything. The actions it has
     * invoked are exactly the permitted ones among the started items, in
     * submission order. When the dispatcher is idle, that covers everything
     * submitted.
     */
    lemma RunsFollowSubmission()
      requires Valid() && LogIsLaneTrace()
      ensures Runs(LaneLog) == Permitted(middlewares, Begun)
      ensures Begun + pipeline.Contents == Submitted
      ensures !isDispatching ==> Runs(LaneLog) == Permitted(middlewares, Submitted)
      ensures |Runs(LaneLog)| <= |Submitted|
    {
      TraceRuns(middlewares, Begun);
      RunsAppend(LaneLog, Pending());
      if running.Some? {
        NoRuns(Pending());
      }
      PermittedWithin(middlewares, Begun);
      assert !isDispatching ==> Submitted == Begun;
    }

    /**
     * Once the dispatcher is idle, every submitted action that no middleware
     * refused has run exactly once, in submission order.
     */
    lemma IdleRanEverything()
      requires Valid() && LogIsLaneTrace() && !isDispatching
      requires forall k :: 0 <= k < |Submitted| ==> Permission(middlewares, Submitted[k]).allowed
      ensures Runs(LaneLog) == Submitted
    {
      RunsFollowSubmission();
      PermittedAll(middlewares, Submitted);
    }
  }
}
