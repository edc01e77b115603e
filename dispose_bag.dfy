/**
 * `TaskDisposeBag`: tasks collected while a screen or object lives, all cancelled when the
 * bag goes away. A task is what `Taskable` abstracts, anything that can be cancelled; what
 * a task does when cancelled is its own affair, so the bag's effect on the world is the
 * sequence of `cancel()` calls it makes, kept here in `cancelCalls`.
 */
module DisposeBags {

  class TaskDisposeBag<T> {
    var tasks: seq<T>
    /** The tasks whose `cancel()` the bag has called, in call order. */
    var cancelCalls: seq<T>

    constructor ()
      ensures tasks == [] && cancelCalls == []
    {
      tasks := [];
      cancelCalls := [];
    }

    /** `add(_:)`: the task joins the bag at the end; nothing is cancelled. */
    method Add(task: T)
      modifies this
      ensures tasks == old(tasks) + [task]
      ensures cancelCalls == old(cancelCalls)
    {
      tasks := tasks + [task];
    }

    /**
     * `dispose()`: every task in the bag is cancelled once per time it was added, in the
     * order added, and the bag is emptied.
     */
    method Dispose()
      modifies this
      ensures cancelCalls == old(cancelCalls) + old(tasks)
      ensures tasks == []
    {
      for i := 0 to |tasks|
        invariant tasks == old(tasks)
        invariant cancelCalls == old(cancelCalls) + tasks[..i]
      {
        cancelCalls := cancelCalls + [tasks[i]];
      }
      tasks := [];
    }

    /** `deinit`: the bag going away disposes of it. */
    method Deinit()
      modifies this
      ensures cancelCalls == old(cancelCalls) + old(tasks)
      ensures tasks == []
    {
      Dispose();
    }
  }

  /** `bag += task`: the same as `bag.add(task)`. */
  method AddAssign<T>(left: TaskDisposeBag<T>, right: T)
    modifies left
    ensures left.tasks == old(left.tasks) + [right]
    ensures left.cancelCalls == old(left.cancelCalls)
  {
    left.Add(right);
  }

  /**
   * The life of a bag: a fresh bag that is given `ts` with `+=` and then goes away cancels
   * exactly the tasks of `ts`, each once per time it was given, in the order given.
   */
  method Lifetime<T>(ts: seq<T>) returns (cancelled: seq<T>)
    ensures cancelled == ts
  {
    var bag := new TaskDisposeBag<T>();
    for i := 0 to |ts|
      invariant bag.tasks == ts[..i] && bag.cancelCalls == []
    {
      AddAssign(bag, ts[i]);
    }
    bag.Deinit();
    cancelled := bag.cancelCalls;
  }
}
