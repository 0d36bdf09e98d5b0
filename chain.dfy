/**
 * The middleware chain that `execute` runs around an action: a short-circuiting
 * permission fold over the middlewares in registration order, then every
 * `willExecute` hook, the action itself, and every `didExecute` hook.
 *
 * A middleware is identified by its index in the registration order. Only its
 * verdict matters to the dispatcher; its two notification hooks return nothing
 * and are recorded as events.
 */
module Chain {

  datatype Middleware<!A> = Middleware(shouldExecute: A -> bool)

  /** The permission decision and how many middlewares were asked to reach it. */
  datatype Verdict = Verdict(allowed: bool, asked: nat)

  /** What a middleware or the action observes, in the order it happens. */
  datatype Event<A> =
    | Ask(middleware: nat, action: A)
    | Will(middleware: nat, action: A)
    | Run(action: A)
    | Did(middleware: nat, action: A)

  /** One step of the fold: a refusal already reached is kept; otherwise the middleware is asked. */
  function AskNext<A>(acc: Verdict, m: Middleware<A>, a: A): Verdict
  {
    if !acc.allowed then acc else Verdict(m.shouldExecute(a), acc.asked + 1)
  }

  /** The fold itself, left to right, starting from the accumulator `acc`. */
  function Reduce<A>(mws: seq<Middleware<A>>, a: A, acc: Verdict): Verdict
    decreases |mws|
  {
    if mws == [] then acc else Reduce(mws[1..], a, AskNext(acc, mws[0], a))
  }

  /** The permission check of `execute`: the fold started from "allowed, nobody asked yet". */
  function Permission<A>(mws: seq<Middleware<A>>, a: A): Verdict
  {
    Reduce(mws, a, Verdict(true, 0))
  }

  /**
   * What the fold computes from any accumulator. A refusal already reached is
   * kept. Otherwise the fold asks a prefix of the middlewares that ends at the
   * first refusal, and its answer is the conjunction of all their verdicts.
   */
  lemma {:induction false} ReduceSpec<A>(mws: seq<Middleware<A>>, a: A, acc: Verdict)
    ensures var r := Reduce(mws, a, acc);
            && (!acc.allowed ==> r == acc)
            && (acc.allowed ==> acc.asked <= r.asked <= acc.asked + |mws|)
            && (acc.allowed ==> (r.allowed <==> forall i :: 0 <= i < |mws| ==> mws[i].shouldExecute(a)))
            && (acc.allowed && r.allowed ==> r.asked == acc.asked + |mws|)
            && (acc.allowed && !r.allowed ==>
                  && acc.asked < r.asked
                  && !mws[r.asked - acc.asked - 1].shouldExecute(a)
                  && forall i :: 0 <= i < r.asked - acc.asked - 1 ==> mws[i].shouldExecute(a))
    decreases |mws|
  {
    if mws != [] {
      ReduceSpec(mws[1..], a, AskNext(acc, mws[0], a));
      assert forall i :: 0 < i < |mws| ==> mws[i] == mws[1..][i - 1];
    }
  }

  /**
   * The permission check allows exactly when every middleware allows. The
   * middlewares asked are a prefix of the registration order that ends at the
   * first refusal. No middleware behind that refusal is asked, and with no
   * middlewares at all the action is allowed.
   */
  lemma PermissionSpec<A>(mws: seq<Middleware<A>>, a: A)
    ensures var r := Permission(mws, a);
            && r.asked <= |mws|
            && (r.allowed <==> forall i :: 0 <= i < |mws| ==> mws[i].shouldExecute(a))
            && (r.allowed ==> r.asked == |mws|)
            && (!r.allowed ==>
                  && 0 < r.asked
                  && !mws[r.asked - 1].shouldExecute(a)
                  && forall i :: 0 <= i < r.asked - 1 ==> mws[i].shouldExecute(a))
  {
    ReduceSpec(mws, a, Verdict(true, 0));
  }

  ghost function Asks<A>(n: nat, a: A): seq<Event<A>>
  {
    seq(n, i requires 0 <= i => Ask(i, a))
  }

  ghost function Wills<A>(n: nat, a: A): seq<Event<A>>
  {
    seq(n, i requires 0 <= i => Will(i, a))
  }

  ghost function Dids<A>(n: nat, a: A): seq<Event<A>>
  {
    seq(n, i requires 0 <= i => Did(i, a))
  }

  /** The events of `execute` up to the point where the action's operation is under way. */
  ghost function ExecutionStart<A>(mws: seq<Middleware<A>>, a: A): seq<Event<A>>
  {
    var v := Permission(mws, a);
    Asks(v.asked, a) + if v.allowed then Wills(|mws|, a) + [Run(a)] else []
  }

  /** The events that follow the action's completion. */
  ghost function ExecutionEnd<A>(mws: seq<Middleware<A>>, a: A): seq<Event<A>>
  {
    if Permission(mws, a).allowed then Dids(|mws|, a) else []
  }

  /** Every event of one complete `execute` of `a`. */
  ghost function Execution<A>(mws: seq<Middleware<A>>, a: A): seq<Event<A>>
  {
    ExecutionStart(mws, a) + ExecutionEnd(mws, a)
  }

  /** The events of executing the items of `s` one after another, each to completion. */
  ghost function Trace<A>(mws: seq<Middleware<A>>, s: seq<A>): seq<Event<A>>
  {
    if s == [] then [] else Trace(mws, s[..|s| - 1]) + Execution(mws, s[|s| - 1])
  }

  /** The actions whose operation was invoked, in the order of a log. */
  ghost function Runs<A>(log: seq<Event<A>>): seq<A>
  {
    if log == [] then [] else (if log[0].Run? then [log[0].action] else []) + Runs(log[1..])
  }

  /** The items of `s` that the middlewares let through, in order. */
  ghost function Permitted<A>(mws: seq<Middleware<A>>, s: seq<A>): seq<A>
  {
    if s == [] then []
    else Permitted(mws, s[..|s| - 1]) + if Permission(mws, s[|s| - 1]).allowed then [s[|s| - 1]] else []
  }

  lemma {:induction false} RunsAppend<A>(x: seq<Event<A>>, y: seq<Event<A>>)
    ensures Runs(x + y) == Runs(x) + Runs(y)
    decreases |x|
  {
    if x != [] {
      assert (x + y)[0] == x[0] && (x + y)[1..] == x[1..] + y;
      RunsAppend(x[1..], y);
    } else {
      assert x + y == y;
    }
  }

  lemma {:induction false} NoRuns<A>(log: seq<Event<A>>)
    requires forall k :: 0 <= k < |log| ==> !log[k].Run?
    ensures Runs(log) == []
    decreases |log|
  {
    if log != [] {
      NoRuns(log[1..]);
    }
  }

  /**
   * A refused action leaves only permission requests behind: no `willExecute`,
   * no run and no `didExecute`, and no middleware behind the first refusal
   * was asked.
   */
  lemma VetoedExecution<A>(mws: seq<Middleware<A>>, a: A)
    requires !Permission(mws, a).allowed
    ensures var k := Permission(mws, a).asked;
            && Execution(mws, a) == Asks(k, a)
            && forall e :: e in Execution(mws, a) ==> e.Ask? && e.action == a && e.middleware < k
    ensures Runs(Execution(mws, a)) == []
  {
    PermissionSpec(mws, a);
    var k := Permission(mws, a).asked;
    assert Execution(mws, a) == Asks(k, a);
    NoRuns(Asks(k, a));
  }

  /**
   * A permitted action: every middleware is asked, then every `willExecute`
   * fires in registration order, then the action runs once, then every
   * `didExecute` fires in registration order.
   */
  lemma PermittedExecution<A>(mws: seq<Middleware<A>>, a: A)
    requires Permission(mws, a).allowed
    ensures var log, n := Execution(mws, a), |mws|;
            && |log| == 3 * n + 1
            && (forall i :: 0 <= i < n ==> log[i] == Ask(i, a))
            && (forall i :: 0 <= i < n ==> log[n + i] == Will(i, a))
            && log[2 * n] == Run(a)
            && (forall i :: 0 <= i < n ==> log[2 * n + 1 + i] == Did(i, a))
    ensures Runs(Execution(mws, a)) == [a]
  {
    PermissionSpec(mws, a);
    var n := |mws|;
    var log := Execution(mws, a);
    assert log == Asks(n, a) + Wills(n, a) + [Run(a)] + Dids(n, a);
    NoRuns(Asks(n, a));
    NoRuns(Wills(n, a));
    NoRuns(Dids(n, a));
    RunsAppend(Asks(n, a), Wills(n, a));
    RunsAppend(Asks(n, a) + Wills(n, a), [Run(a)]);
    RunsAppend(Asks(n, a) + Wills(n, a) + [Run(a)], Dids(n, a));
  }

  /** The invoked operations of a run of complete executions are exactly the permitted items, in order, each once. */
  lemma {:induction false} TraceRuns<A>(mws: seq<Middleware<A>>, s: seq<A>)
    ensures Runs(Trace(mws, s)) == Permitted(mws, s)
    decreases |s|
  {
    if s != [] {
      var x := s[|s| - 1];
      TraceRuns(mws, s[..|s| - 1]);
      RunsAppend(Trace(mws, s[..|s| - 1]), Execution(mws, x));
      if Permission(mws, x).allowed {
        PermittedExecution(mws, x);
      } else {
        VetoedExecution(mws, x);
      }
    }
  }

  /** Executing one more item extends the trace by that item's execution. */
  lemma TraceSnoc<A>(mws: seq<Middleware<A>>, s: seq<A>, x: A)
    ensures Trace(mws, s + [x]) == Trace(mws, s) + Execution(mws, x)
  {
    assert (s + [x])[..|s|] == s;
  }

  /** Starting `x` after a complete trace of `s` leaves exactly the end of `x`'s execution outstanding. */
  lemma TraceStarting<A>(mws: seq<Middleware<A>>, s: seq<A>, x: A, log: seq<Event<A>>)
    requires log == Trace(mws, s) + ExecutionStart(mws, x)
    ensures log + ExecutionEnd(mws, x) == Trace(mws, s + [x])
  {
    TraceSnoc(mws, s, x);
  }

  /**
   * A log that, completed by the outstanding end of `x`'s execution, equals the
   * trace of `s` followed by `x`, is the trace of `s` followed by the start of
   * `x`'s execution.
   */
  lemma TraceStarted<A>(mws: seq<Middleware<A>>, s: seq<A>, x: A, log: seq<Event<A>>)
    requires log + ExecutionEnd(mws, x) == Trace(mws, s + [x])
    ensures log == Trace(mws, s) + ExecutionStart(mws, x)
  {
    TraceSnoc(mws, s, x);
    assert log == (log + ExecutionEnd(mws, x))[..|log|];
  }

  /** When nobody refuses any item of `s`, every item of `s` is let through. */
  lemma {:induction false} PermittedAll<A>(mws: seq<Middleware<A>>, s: seq<A>)
    requires forall k :: 0 <= k < |s| ==> Permission(mws, s[k]).allowed
    ensures Permitted(mws, s) == s
    decreases |s|
  {
    if s != [] {
      PermittedAll(mws, s[..|s| - 1]);
    }
  }

  /** The permitted items are a selection of `s`: never more of them, and never anything outside `s`. */
  lemma {:induction false} PermittedWithin<A>(mws: seq<Middleware<A>>, s: seq<A>)
    ensures |Permitted(mws, s)| <= |s|
    ensures forall x :: x in Permitted(mws, s) ==> x in s && Permission(mws, x).allowed
    decreases |s|
  {
    if s != [] {
      PermittedWithin(mws, s[..|s| - 1]);
    }
  }
}
