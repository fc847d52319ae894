/**
 * First-in first-out behaviour, stated once on sequences: the two
 * `ThreadSafeQueue` classes are both specified against it.
 */
module Fifo {
  import opened Basics

  /** One call on a queue: `queue(value)` or `pop()`. */
  datatype QueueOp<T> = Push(value: T) | Pop

  /** The values pushed by a run of calls, in call order. */
  function Pushed<T>(ops: seq<QueueOp<T>>): seq<T> {
    if ops == [] then []
    else (if ops[0].Push? then [ops[0].value] else []) + Pushed(ops[1..])
  }

  /** The values pushed by two runs one after the other are those of the first run, then the second's. */
  lemma {:induction false} PushedKeepsOrder<T>(first: seq<QueueOp<T>>, second: seq<QueueOp<T>>)
    ensures Pushed(first + second) == Pushed(first) + Pushed(second)
  {
    if first != [] {
      assert (first + second)[1..] == first[1..] + second;
      PushedKeepsOrder(first[1..], second);
    } else {
      assert first + second == second;
    }
  }

  /**
   * Runs the calls on a queue holding `contents`, with the pop that returns
   * nothing on an empty queue; yields what the pops returned, in order, and
   * what is left queued.
   */
  function Replay<T>(contents: seq<T>, ops: seq<QueueOp<T>>): (run: (seq<T>, seq<T>))
    decreases |ops|
  {
    if ops == [] then ([], contents)
    else
      match ops[0]
      case Push(v) => Replay(contents + [v], ops[1..])
      case Pop =>
        if contents == [] then Replay(contents, ops[1..])
        else
          var rest := Replay(contents[1..], ops[1..]);
          ([contents[0]] + rest.0, rest.1)
  }

  /** A single pop, run through `Replay`. */
  lemma ReplaySinglePop<T>(contents: seq<T>)
    ensures Replay(contents, [Pop]) ==
            if contents == [] then ([], []) else ([contents[0]], contents[1..])
  {
    var ops: seq<QueueOp<T>> := [Pop];
    assert ops[0] == Pop && ops[1..] == [];
    if contents == [] {
      assert Replay(contents, ops) == Replay(contents, []);
    } else {
      assert Replay(contents[1..], ops[1..]) == ([], contents[1..]);
      assert [contents[0]] + [] == [contents[0]];
      assert Replay(contents, ops) == ([contents[0]], contents[1..]);
    }
  }

  /**
   * FIFO order: whatever the interleaving of calls, the values popped
   * followed by the values still queued are the initial contents followed
   * by the pushed values, in push order.  So pops return values in insertion
   * order and the values left keep their relative order.
   */
  lemma {:induction false} ReplayIsFifo<T>(contents: seq<T>, ops: seq<QueueOp<T>>)
    ensures Replay(contents, ops).0 + Replay(contents, ops).1 == contents + Pushed(ops)
    decreases |ops|
  {
    if ops != [] {
      match ops[0]
      case Push(v) =>
        ReplayIsFifo(contents + [v], ops[1..]);
        assert Pushed(ops) == [v] + Pushed(ops[1..]);
      case Pop =>
        assert Pushed(ops) == Pushed(ops[1..]);
        if contents == [] {
          ReplayIsFifo(contents, ops[1..]);
        } else {
          ReplayIsFifo(contents[1..], ops[1..]);
          var rest := Replay(contents[1..], ops[1..]);
          calc {
            Replay(contents, ops).0 + Replay(contents, ops).1;
            [contents[0]] + rest.0 + rest.1;
            [contents[0]] + (rest.0 + rest.1);
            [contents[0]] + (contents[1..] + Pushed(ops[1..]));
            { assert contents == [contents[0]] + contents[1..]; }
            contents + Pushed(ops);
          }
        }
    }
  }
}

/** `ThreadSafeQueue` of src/libs/helpers.h: a list with a polling, blocking `pop`. */
module BlockingQueue {

  class ThreadSafeQueue<T> {
    /** The `list<T> queued`, front first. */
    var queued: seq<T>

    constructor()
      ensures queued == []
    {
      queued := [];
    }

    /** `queue`: append at the back. */
    method Queue(data: T)
      modifies this
      ensures queued == old(queued) + [data]
    {
      queued := queued + [data];
    }

    /**
     * `pop`: the C++ sleeps until the list is not empty, which a sequential
     * model states as a precondition; then it returns the front and removes it.
     */
    method Pop() returns (data: T)
      requires queued != []
      modifies this
      ensures [data] + queued == old(queued)
    {
      data := queued[0];
      queued := queued[1..];
    }
  }
}

/**
 * `ThreadSafeQueue` and `QueueProcessor` of src/libs/common/helpers.h: a
 * queue whose `pop` returns nothing when empty, and a worker loop that
 * hands each popped entry to `processEntry` until `stop` is called.
 */
module CommonQueues {
  import opened Basics
  import Fifo

  class ThreadSafeQueue<T> {
    /** The `std::queue<T> _queue`, front first. */
    var contents: seq<T>

    constructor()
      ensures contents == []
    {
      contents := [];
    }

    /** `queue`: push at the back. */
    method Queue(value: T)
      modifies this
      ensures contents == old(contents) + [value]
    {
      contents := contents + [value];
    }

    /** `pop`: `nullopt` and no change on an empty queue, else the front, removed. */
    method Pop() returns (result: Option<T>)
      modifies this
      ensures old(contents) == [] ==> result == None && contents == old(contents)
      ensures old(contents) != [] ==> result == Some(old(contents)[0]) && contents == old(contents)[1..]
      ensures Fifo.Replay(old(contents), [Fifo.Pop]) ==
              (if result.Some? then [result.value] else [], contents)
    {
      Fifo.ReplaySinglePop(contents);
      if contents == [] {
        result := None;
      } else {
        result := Some(contents[0]);
        contents := contents[1..];
      }
    }
  }

  function Min(a: nat, b: nat): nat {
    if a < b then a else b
  }

  /**
   * `QueueProcessor<T>`.  The background thread, its sleeps and `processEntry`
   * itself are not modelled: `processed` records, in order, the entries the
   * loop has passed to `processEntry`.
   */
  class QueueProcessor<T> {
    const queue: ThreadSafeQueue<T>
    var isExiting: bool
    var processed: seq<T>

    constructor()
      ensures fresh(queue) && queue.contents == [] && !isExiting && processed == []
    {
      queue := new ThreadSafeQueue();
      isExiting := false;
      processed := [];
    }

    /** `queue`: forwards to the underlying queue and does nothing else. */
    method Queue(request: T)
      modifies queue
      ensures queue.contents == old(queue.contents) + [request]
    {
      queue.Queue(request);
    }

    /** `stop`: raises the exit flag; the worker's loop then runs no further iteration. */
    method Stop()
      modifies this
      ensures isExiting && processed == old(processed)
    {
      isExiting := true;
    }

    /**
     * Up to `iterations` turns of the loop of `processQueue`: while the exit
     * flag is down, pop; skip a turn on an empty queue, otherwise pass the
     * entry on.  Entries are processed in queue order, each once.
     */
    method RunIterations(iterations: nat)
      modifies this, queue
      ensures isExiting == old(isExiting)
      ensures old(isExiting) ==> processed == old(processed) && queue.contents == old(queue.contents)
      ensures !old(isExiting) ==>
                var k := Min(iterations, |old(queue.contents)|);
                processed == old(processed) + old(queue.contents)[..k] &&
                queue.contents == old(queue.contents)[k..]
    {
      var i := 0;
      while i < iterations && !isExiting
        invariant 0 <= i <= iterations
        invariant isExiting == old(isExiting)
        invariant old(isExiting) ==> i == 0
        invariant var k := Min(i, |old(queue.contents)|);
                  processed == old(processed) + old(queue.contents)[..k] &&
                  queue.contents == old(queue.contents)[k..]
      {
        var result := queue.Pop();
        if result.Some? {
          processed := processed + [result.value];
        }
        i := i + 1;
      }
    }
  }
}
