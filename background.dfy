/**
 * `BackgroundProcessManager`: background refresh tasks registered by identifier and handed
 * to the system's background-task scheduler (`BGTaskScheduler`). The scheduler is not
 * modelled; the manager's effect on it is the sequence of calls it makes, kept in
 * `schedulerCalls`. Time intervals are seconds.
 */
module BackgroundProcesses {
  import opened Seqs

  /** A registered task. Two tasks are the same task when their identifiers are equal. */
  datatype BackgroundTask = BackgroundTask(identifier: string, interval: real)

  predicate SameTask(a: BackgroundTask, b: BackgroundTask)
  {
    a.identifier == b.identifier
  }

  /** A call into the scheduler: handler registration, cancellation, or a refresh request due `delay` seconds from now. */
  datatype SchedulerCall =
    | Register(identifier: string)
    | Cancel(identifier: string)
    | Submit(identifier: string, delay: real)

  /** `tasks.contains(task)`, under identifier equality. */
  predicate Registered(tasks: seq<BackgroundTask>, identifier: string)
  {
    exists i :: 0 <= i < |tasks| && tasks[i].identifier == identifier
  }

  /** No two tasks share an identifier. */
  predicate UniqueIdentifiers(tasks: seq<BackgroundTask>)
  {
    forall i, j :: 0 <= i < j < |tasks| ==> tasks[i].identifier != tasks[j].identifier
  }

  function OtherIdentifier(identifier: string): BackgroundTask -> bool
  {
    (t: BackgroundTask) => t.identifier != identifier
  }

  /** What one `submitBackgroundTask(task:)` asks of the scheduler: drop the pending request, then request anew. */
  function SubmitCalls(task: BackgroundTask): (r: seq<SchedulerCall>)
    ensures |r| == 2 && r[0] == Cancel(task.identifier) && r[1] == Submit(task.identifier, task.interval)
  {
    [Cancel(task.identifier), Submit(task.identifier, task.interval)]
  }

  /** What `submitBackgroundTasks(delay:)` asks: every task resubmitted, in order, due after `delay`. */
  function SubmitAllCalls(tasks: seq<BackgroundTask>, delay: real): (r: seq<SchedulerCall>)
    ensures |r| == 2 * |tasks|
    ensures forall i :: 0 <= i < |tasks| ==>
      r[2 * i] == Cancel(tasks[i].identifier) && r[2 * i + 1] == Submit(tasks[i].identifier, delay)
  {
    if tasks == [] then []
    else
      var n := |tasks| - 1;
      var prefix := SubmitAllCalls(tasks[..n], delay);
      var r := prefix + SubmitCalls(BackgroundTask(tasks[n].identifier, delay));
      assert forall i :: 0 <= i < n ==> tasks[i] == tasks[..n][i];
      r
  }

  /** The delay `submitBackgroundTasks` is called with when the app enters the background. */
  const EnterBackgroundDelay: real := 10.0

  /** The interval `registerBackgroundTask` uses when none is given: one hour. */
  const DefaultInterval: real := 3600.0

  class BackgroundProcessManager {
    var tasks: seq<BackgroundTask>
    var schedulerCalls: seq<SchedulerCall>
    /** Whether the manager subscribed to `didEnterBackgroundNotification`; it does not in the simulator. */
    var observesBackground: bool

    /** `init(logger:)`: in the simulator the manager never observes the app entering the background. */
    constructor (simulator: bool)
      ensures tasks == [] && schedulerCalls == []
      ensures observesBackground == !simulator
    {
      tasks := [];
      schedulerCalls := [];
      observesBackground := !simulator;
    }

    /** `cancelBackgroundTask(identifier:)`: the task leaves the list and its pending request is cancelled. */
    method CancelBackgroundTask(identifier: string)
      modifies this
      ensures tasks == Filter(old(tasks), OtherIdentifier(identifier))
      ensures schedulerCalls == old(schedulerCalls) + [Cancel(identifier)]
      ensures observesBackground == old(observesBackground)
    {
      tasks := Filter(tasks, OtherIdentifier(identifier));
      schedulerCalls := schedulerCalls + [Cancel(identifier)];
    }

    /**
     * `registerBackgroundTask(identifier:interval:handler:)`: an identifier already
     * registered changes nothing; a new one is appended and its handler registered with
     * the scheduler.
     */
    method RegisterBackgroundTask(identifier: string, interval: real := DefaultInterval)
      modifies this
      ensures Registered(old(tasks), identifier) ==> tasks == old(tasks) && schedulerCalls == old(schedulerCalls)
      ensures !Registered(old(tasks), identifier) ==>
        tasks == old(tasks) + [BackgroundTask(identifier, interval)]
        && schedulerCalls == old(schedulerCalls) + [Register(identifier)]
      ensures observesBackground == old(observesBackground)
    {
      var newTask := BackgroundTask(identifier, interval);
      var i := 0;
      while i < |tasks|
        invariant 0 <= i <= |tasks|
        invariant forall k :: 0 <= k < i ==> !SameTask(tasks[k], newTask)
      {
        if SameTask(tasks[i], newTask) {
          return;
        }
        i := i + 1;
      }
      tasks := tasks + [newTask];
      schedulerCalls := schedulerCalls + [Register(identifier)];
    }

    /**
     * `submitBackgroundTask(task:)`: the pending request is cancelled and a new one made,
     * due after the task's interval. A rejected submission is only logged. The handler the
     * scheduler runs calls this with the registered task when the work ends or expires.
     */
    method SubmitBackgroundTask(task: BackgroundTask)
      modifies this
      ensures schedulerCalls == old(schedulerCalls) + SubmitCalls(task)
      ensures tasks == old(tasks) && observesBackground == old(observesBackground)
    {
      schedulerCalls := schedulerCalls + [Cancel(task.identifier)];
      schedulerCalls := schedulerCalls + [Submit(task.identifier, task.interval)];
    }

    /** `submitBackgroundTasks(delay:)`: every registered task resubmitted, due after `delay`. */
    method SubmitBackgroundTasks(delay: real)
      modifies this
      ensures schedulerCalls == old(schedulerCalls) + SubmitAllCalls(old(tasks), delay)
      ensures tasks == old(tasks) && observesBackground == old(observesBackground)
    {
      var registered := tasks;
      for i := 0 to |registered|
        invariant tasks == registered == old(tasks) && observesBackground == old(observesBackground)
        invariant schedulerCalls == old(schedulerCalls) + SubmitAllCalls(registered[..i], delay)
      {
        SubmitBackgroundTask(BackgroundTask(registered[i].identifier, delay));
        assert registered[..i + 1][..i] == registered[..i];
      }
      assert registered[..|registered|] == registered;
    }

    /** The app entering the background: the tasks are resubmitted after ten seconds, unless in the simulator. */
    method DidEnterBackground()
      modifies this
      ensures observesBackground ==> schedulerCalls == old(schedulerCalls) + SubmitAllCalls(old(tasks), EnterBackgroundDelay)
      ensures !observesBackground ==> schedulerCalls == old(schedulerCalls)
      ensures tasks == old(tasks) && observesBackground == old(observesBackground)
    {
      if observesBackground {
        SubmitBackgroundTasks(EnterBackgroundDelay);
      }
    }
  }

  // ---------------------------------------------------------------- properties

  /** Registering keeps identifiers unique, and afterwards the identifier is registered. */
  lemma RegisterKeepsUnique(tasks: seq<BackgroundTask>, identifier: string, interval: real)
    requires UniqueIdentifiers(tasks) && !Registered(tasks, identifier)
    ensures var after := tasks + [BackgroundTask(identifier, interval)];
      UniqueIdentifiers(after) && Registered(after, identifier)
  {
    var after := tasks + [BackgroundTask(identifier, interval)];
    assert after[|tasks|].identifier == identifier;
  }

  /**
   * Cancelling removes every task with the identifier and keeps every other, in order,
   * and keeps identifiers unique.
   */
  lemma CancelRemovesOnlyIdentifier(tasks: seq<BackgroundTask>, identifier: string)
    ensures var after := Filter(tasks, OtherIdentifier(identifier));
      !Registered(after, identifier)
      && (forall t :: t in tasks && t.identifier != identifier ==> t in after)
      && IsSubsequence(after, tasks)
      && (UniqueIdentifiers(tasks) ==> UniqueIdentifiers(after))
  {
    var after := Filter(tasks, OtherIdentifier(identifier));
    forall i | 0 <= i < |after|
      ensures after[i].identifier != identifier
    {
      assert after[i] in after;
    }
    FilterIsSubsequence(tasks, OtherIdentifier(identifier));
    if UniqueIdentifiers(tasks) {
      FilterKeepsUnique(tasks, OtherIdentifier(identifier));
    }
  }

  lemma {:induction false} FilterKeepsUnique(s: seq<BackgroundTask>, keep: BackgroundTask -> bool)
    requires UniqueIdentifiers(s)
    ensures UniqueIdentifiers(Filter(s, keep))
  {
    if s != [] {
      var rest := Filter(s[1..], keep);
      assert UniqueIdentifiers(s[1..]) by {
        assert forall i :: 0 <= i < |s| - 1 ==> s[1..][i] == s[i + 1];
      }
      FilterKeepsUnique(s[1..], keep);
      if keep(s[0]) {
        var r := [s[0]] + rest;
        forall j | 0 < j < |r|
          ensures r[0].identifier != r[j].identifier
        {
          assert r[j] == rest[j - 1] && rest[j - 1] in rest;
          var k :| 0 <= k < |s[1..]| && s[1..][k] == r[j];
          assert s[k + 1] == r[j];
        }
        assert forall i, j :: 0 < i < j < |r| ==> r[i] == rest[i - 1] && r[j] == rest[j - 1];
      }
    }
  }
}
