/**
 * The pipeline: a singly linked FIFO queue of postponed action items.
 *
 * An item is a deferred, argument-less callable in the library; here it is an
 * opaque value of type `A`. Running an item is the caller's business: `Flush`
 * hands the popped item back and the dispatcher runs it (see Dispatchers).
 */
module Pipelines {
  import opened Wrappers

  /** One node of the queue: its item and the link to the node behind it. */
  class Step<A> {
    const action: A
    var next: Step?<A>

    constructor (action: A)
      ensures this.action == action && next == null
    {
      this.action := action;
      next := null;
    }
  }

  class Pipeline<A> {
    var head: Step?<A>
    var tail: Step?<A>

    // abstract view: the queued items, front first, and the nodes holding them
    ghost var Contents: seq<A>
    ghost var Nodes: seq<Step<A>>
    ghost var Repr: set<object>

    /** The object invariant: `Nodes` is an acyclic chain from `head` to `tail` holding `Contents`. */
    ghost predicate Valid()
      reads this, Repr
      ensures Valid() ==> this in Repr
      ensures Valid() ==> (head == null <==> tail == null)
      ensures Valid() ==> (head == null <==> Contents == [])
    {
      && this in Repr
      && |Nodes| == |Contents|
      && (forall i :: 0 <= i < |Nodes| ==> Nodes[i] in Repr && Nodes[i].action == Contents[i])
      && (forall i, j :: 0 <= i < j < |Nodes| ==> Nodes[i] != Nodes[j])
      && (forall i {:trigger Nodes[i].next} :: 0 <= i < |Nodes| ==> Nodes[i].next == Next(i))
      && head == (if Nodes == [] then null else Nodes[0])
      && tail == (if Nodes == [] then null else Nodes[|Nodes| - 1])
    }

    /** The node that follows the `i`th one in the chain, or null behind the last. */
    ghost function Next(i: nat): Step?<A>
      reads this
    {
      if i + 1 < |Nodes| then Nodes[i + 1] else null
    }

    constructor ()
      ensures Valid() && fresh(Repr)
      ensures Contents == [] && head == null && tail == null
    {
      head, tail := null, null;
      Contents, Nodes := [], [];
      Repr := {this};
    }

    /** `isEmpty`: answered from `head` alone, in constant time. */
    function IsEmpty(): (r: bool)
      reads this, Repr
      requires Valid()
      ensures r <==> Contents == []
    {
      head == null
    }

    /** Assignment to `head` together with its observer: a nil head also clears `tail`. */
    method SetHead(h: Step?<A>)
      modifies this`head, this`tail
      ensures head == h
      ensures tail == if h == null then null else old(tail)
    {
      head := h;
      if head == null {
        tail := null;
      }
    }

    /** `postpone`: appends an item behind every queued one. */
    method Postpone(action: A)
      requires Valid()
      modifies Repr
      ensures Valid() && fresh(Repr - old(Repr))
      ensures Contents == old(Contents) + [action]
      ensures old(head) != null ==> head == old(head)
      ensures old(tail) != null ==> old(tail).next == tail
      ensures tail != null && fresh(tail) && tail.action == action && tail.next == null
    {
      var step := new Step(action);
      if tail != null {
        var last := tail;
        last.next := step;
        tail := step;
      } else {
        SetHead(step);
        tail := head;
      }
      Nodes := Nodes + [step];
      Contents := Contents + [action];
      Repr := Repr + {step};
    }

    /**
     * `flush`: reports `empty` when there is nothing queued and otherwise
     * unlinks the front node and hands back its item, the one to run.
     */
    method Flush() returns (empty: bool, step: Option<A>)
      requires Valid()
      modifies this
      ensures Valid() && Repr <= old(Repr)
      ensures empty <==> old(Contents) == []
      ensures empty ==> step == None && unchanged(this)
      ensures !empty ==> step == Some(old(Contents)[0]) && Contents == old(Contents)[1..]
    {
      if head != null {
        var s := head;
        assert s.next == Next(0);
        SetHead(s.next);
        Nodes := Nodes[1..];
        Contents := Contents[1..];
        Repr := Repr - {s};
        return false, Some(s.action);
      }
      return true, None;
    }

    /** `clear`: drops every queued item without handing any of them out. */
    method Clear()
      requires Valid()
      modifies this
      ensures Valid() && Repr == {this}
      ensures Contents == [] && head == null && tail == null
    {
      SetHead(null);
      Nodes, Contents := [], [];
      Repr := {this};
    }

    /** The number of queued items, found by walking the chain from `head`. */
    method Count() returns (n: nat)
      requires Valid()
      ensures n == |Contents|
    {
      if head == null {
        return 0;
      }
      var item := head;
      n := 1;
      while item.next != null
        invariant 1 <= n <= |Nodes| && item == Nodes[n - 1]
        invariant item.next == Next(n - 1)
        decreases |Nodes| - n
      {
        item := item.next;
        assert item == Nodes[n];
        n := n + 1;
      }
    }
  }

  /** A fresh pipeline into which `items` were postponed one by one. */
  method Filled<A>(items: seq<A>) returns (p: Pipeline<A>)
    ensures p.Valid() && fresh(p.Repr)
    ensures p.Contents == items
  {
    p := new Pipeline<A>();
    for k := 0 to |items|
      invariant p.Valid() && fresh(p.Repr)
      invariant p.Contents == items[..k]
    {
      p.Postpone(items[k]);
    }
    assert items[..|items|] == items;
  }

  /** Flushes `p` until it reports empty and collects the items handed out. */
  method Drain<A>(p: Pipeline<A>) returns (flushed: seq<A>)
    requires p.Valid()
    modifies p
    ensures p.Valid() && p.Contents == []
    ensures flushed == old(p.Contents)
  {
    flushed := [];
    var empty := false;
    while !empty
      invariant p.Valid() && p.Repr <= old(p.Repr)
      invariant |flushed| <= |old(p.Contents)|
      invariant flushed == old(p.Contents)[..|flushed|]
      invariant p.Contents == old(p.Contents)[|flushed|..]
      invariant empty ==> p.Contents == []
      decreases |p.Contents|, if empty then 0 else 1
    {
      var step;
      empty, step := p.Flush();
      if !empty {
        flushed := flushed + [step.value];
      }
    }
    assert old(p.Contents)[..|flushed|] == old(p.Contents);
  }

  /**
   * FIFO: items postponed one after another come out of successive flushes in
   * the order they went in, each exactly once, and the pipeline ends empty.
   */
  method FlushOrder<A>(items: seq<A>) returns (flushed: seq<A>, emptyAtEnd: bool)
    ensures flushed == items
    ensures emptyAtEnd
  {
    var p := Filled(items);
    flushed := Drain(p);
    emptyAtEnd := p.IsEmpty();
  }
}
