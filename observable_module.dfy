/**
 * `ObservableModule`: a published result with its loading state and last error, refreshed
 * by running a task. Every setter hops to the main actor: it enqueues an update that the
 * main actor applies later, in order. Here the queue is `pending`, and `Drain` is the main
 * actor applying it. The task's outcome is a parameter.
 */
module ObservableModules {
  import opened Wrappers

  /** `LoadingState`. */
  datatype LoadingState = Loading | NotLoading | Updating

  /** An update a setter enqueues. */
  datatype Update<T, E> =
    | NewResult(result: T)
    | NewLoadingState(loadingState: LoadingState)
    | NewError(error: Option<E>)

  /** The published fields. */
  datatype ModuleState<T, E> = ModuleState(loadingState: LoadingState, result: T, error: Option<E>)

  /** One update applied: the field it names takes its value; the others stay. */
  function Apply<T, E>(s: ModuleState<T, E>, u: Update<T, E>): (r: ModuleState<T, E>)
    ensures u.NewResult? ==> r == s.(result := u.result)
    ensures u.NewLoadingState? ==> r == s.(loadingState := u.loadingState)
    ensures u.NewError? ==> r == s.(error := u.error)
  {
    match u
    case NewResult(v) => s.(result := v)
    case NewLoadingState(l) => s.(loadingState := l)
    case NewError(e) => s.(error := e)
  }

  /** The updates applied in order. */
  function ApplyAll<T, E>(s: ModuleState<T, E>, us: seq<Update<T, E>>): (r: ModuleState<T, E>)
    decreases |us|
  {
    if us == [] then s else ApplyAll(Apply(s, us[0]), us[1..])
  }

  lemma {:induction false} ApplyAllConcat<T, E>(s: ModuleState<T, E>, a: seq<Update<T, E>>, b: seq<Update<T, E>>)
    ensures ApplyAll(s, a + b) == ApplyAll(ApplyAll(s, a), b)
    decreases |a|
  {
    if a == [] {
      assert a + b == b;
    } else {
      assert (a + b)[0] == a[0] && (a + b)[1..] == a[1..] + b;
      ApplyAllConcat(Apply(s, a[0]), a[1..], b);
    }
  }

  /**
   * The state a run starts in: the one asked for; otherwise `updating` over a result that
   * is `Emptyable` and not empty, and `loading` over any other. `isNotEmpty` is nil for a
   * result type that is not `Emptyable`.
   */
  function StartState(startLoadingState: Option<LoadingState>, isNotEmpty: Option<bool>): (r: LoadingState)
    ensures startLoadingState.Some? ==> r == startLoadingState.value
    ensures startLoadingState.None? ==> (r == Updating <==> isNotEmpty == Some(true))
    ensures startLoadingState.None? ==> r != NotLoading
  {
    match startLoadingState
    case Some(l) => l
    case None => if isNotEmpty == Some(true) then Updating else Loading
  }

  /** The updates one run enqueues: clear the error, the start state, the outcome, then `notLoading`. */
  function RunUpdates<T, E>(start: LoadingState, outcome: Result<T, E>): (r: seq<Update<T, E>>)
    ensures |r| == 4 && r[0] == NewError(None) && r[1] == NewLoadingState(start)
    ensures r[3] == NewLoadingState(NotLoading)
    ensures outcome.Ok? ==> r[2] == NewResult(outcome.value)
    ensures outcome.Err? ==> r[2] == NewError(Some(outcome.error))
  {
    var settle := match outcome
      case Ok(v) => NewResult(v)
      case Err(e) => NewError(Some(e));
    [NewError(None), NewLoadingState(start), settle, NewLoadingState(NotLoading)]
  }

  class ObservableModule<T, E> {
    var loadingState: LoadingState
    var result: T
    var error: Option<E>
    /** The setters' main-actor updates not yet applied, oldest first. */
    var pending: seq<Update<T, E>>

    function State(): ModuleState<T, E>
      reads this
    {
      ModuleState(loadingState, result, error)
    }

    /** `init(initialValue:loadingState:)`: `notLoading` unless another state is given. */
    constructor (initialValue: T, loadingState: LoadingState := NotLoading)
      ensures result == initialValue && this.loadingState == loadingState && error.None? && pending == []
    {
      result := initialValue;
      this.loadingState := loadingState;
      error := None;
      pending := [];
    }

    /** `setResult(_:)`: the result is published on the main actor. */
    method SetResult(value: T)
      modifies this
      ensures pending == old(pending) + [NewResult(value)]
      ensures State() == old(State())
    {
      pending := pending + [NewResult(value)];
    }

    /**
     * `perform(withLoadingState:_:)`: the start state is chosen from the result as it is
     * now, then the run's updates are enqueued in order. `isNotEmpty` reads the result as
     * `Emptyable`, if it is one.
     */
    method Perform(startLoadingState: Option<LoadingState>, isNotEmpty: T -> Option<bool>, outcome: Result<T, E>)
      modifies this
      ensures pending == old(pending) + RunUpdates(StartState(startLoadingState, isNotEmpty(old(result))), outcome)
      ensures State() == old(State())
    {
      pending := pending + [NewError(None)];
      var emptyable := isNotEmpty(result);
      if startLoadingState.Some? {
        pending := pending + [NewLoadingState(startLoadingState.value)];
      } else if emptyable == Some(true) {
        pending := pending + [NewLoadingState(Updating)];
      } else {
        pending := pending + [NewLoadingState(Loading)];
      }
      match outcome {
        case Ok(v) => pending := pending + [NewResult(v)];
        case Err(e) => pending := pending + [NewError(Some(e))];
      }
      pending := pending + [NewLoadingState(NotLoading)];
    }

    /** The main actor runs the enqueued updates, oldest first. */
    method Drain()
      modifies this
      ensures State() == ApplyAll(old(State()), old(pending))
      ensures pending == []
    {
      while pending != []
        invariant ApplyAll(State(), pending) == ApplyAll(old(State()), old(pending))
        decreases |pending|
      {
        var u := pending[0];
        match u {
          case NewResult(v) => result := v;
          case NewLoadingState(l) => loadingState := l;
          case NewError(e) => error := e;
        }
        pending := pending[1..];
      }
    }
  }

  // ---------------------------------------------------------------- properties

  /**
   * While the task runs the module shows the start state with no error; once the run's
   * updates are applied it is `notLoading`, with the new result and no error after a
   * success, or the old result and the error after a failure.
   */
  lemma RunOutcome<T, E>(s: ModuleState<T, E>, start: LoadingState, outcome: Result<T, E>)
    ensures var during := ApplyAll(s, RunUpdates(start, outcome)[..2]);
      during.loadingState == start && during.error.None? && during.result == s.result
    ensures var after := ApplyAll(s, RunUpdates(start, outcome));
      after.loadingState == NotLoading
      && (outcome.Ok? ==> after.result == outcome.value && after.error.None?)
      && (outcome.Err? ==> after.result == s.result && after.error == Some(outcome.error))
  {
    var us := RunUpdates(start, outcome);
    var s1 := Apply(s, us[0]);
    var s2 := Apply(s1, us[1]);
    var s3 := Apply(s2, us[2]);
    var s4 := Apply(s3, us[3]);
    var first := us[..2];
    assert first[0] == us[0] && first[1..][0] == us[1] && first[1..][1..] == [];
    assert ApplyAll(s, first) == ApplyAll(s1, first[1..]) == ApplyAll(s2, []) == s2;
    assert us[1..][0] == us[1] && us[1..][1..][0] == us[2] && us[1..][1..][1..][0] == us[3];
    assert us[1..][1..][1..][1..] == [];
    assert ApplyAll(s, us) == ApplyAll(s1, us[1..]);
    assert ApplyAll(s1, us[1..]) == ApplyAll(s2, us[1..][1..]);
    assert ApplyAll(s2, us[1..][1..]) == ApplyAll(s3, us[1..][1..][1..]);
    assert ApplyAll(s3, us[1..][1..][1..]) == s4;
  }

  /** `init(initialValue:)` without a loading state: the module starts `notLoading`. */
  method NewModule<T, E>(initialValue: T) returns (initial: ModuleState<T, E>)
    ensures initial.loadingState == NotLoading
    ensures initial.result == initialValue && initial.error.None?
  {
    var m := new ObservableModule<T, E>(initialValue);
    initial := m.State();
  }

  /**
   * A module whose queue is empty that runs a task and lets the main actor catch up ends
   * `notLoading`, with the outcome published.
   */
  method PerformAndSettle<T, E>(initialValue: T, startLoadingState: Option<LoadingState>,
                                isNotEmpty: T -> Option<bool>, outcome: Result<T, E>)
    returns (final: ModuleState<T, E>)
    ensures final.loadingState == NotLoading
    ensures outcome.Ok? ==> final.result == outcome.value && final.error.None?
    ensures outcome.Err? ==> final.result == initialValue && final.error == Some(outcome.error)
  {
    var m := new ObservableModule<T, E>(initialValue);
    ghost var s0 := m.State();
    ghost var run := RunUpdates(StartState(startLoadingState, isNotEmpty(initialValue)), outcome);
    m.Perform(startLoadingState, isNotEmpty, outcome);
    assert m.pending == run;
    m.Drain();
    RunOutcome(s0, StartState(startLoadingState, isNotEmpty(initialValue)), outcome);
    final := m.State();
  }

  /** `isNotEmpty`: the negation of `isEmpty`, for any `Emptyable`. */
  function IsNotEmpty<X>(s: seq<X>): (r: bool)
    ensures r <==> |s| > 0
  {
    !(|s| == 0)
  }
}
