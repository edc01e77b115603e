/**
 * A coordinator's transition: how a screen is shown (push, reset, present, a custom
 * animator, or nothing) and whether that is animated; and the push/pop flag every
 * custom animator carries.
 */
module Transitions {

  /** A view controller, by identity. The model never looks inside one. */
  type Screen = nat

  /** A navigation controller, by identity. Its stack of screens lives in the coordinator arena. */
  type StackId = nat

  /**
   * A custom push/pop animator. `isPushing` is the flag stored beside it as an associated
   * object: it reads false until it is first set.
   */
  class Animator {
    var isPushing: bool

    constructor ()
      ensures !isPushing
    {
      isPushing := false;
    }

    method SetPushing(value: bool)
      modifies this
      ensures isPushing == value
    {
      isPushing := value;
    }
  }

  datatype PresentSettings = PresentSettings(inNewNavigationController: bool, fullScreen: bool)

  datatype TransitionType =
    | Push
    | Reset(backwards: bool)
    | Present(settings: PresentSettings)
    | Custom(animator: Animator)
    | NoTransition

  datatype Transition = Transition(kind: TransitionType, animated: bool)

  /** `PresentSettings()`: a new navigation controller, not full screen. */
  function DefaultPresentSettings(): (s: PresentSettings)
    ensures s.inNewNavigationController && !s.fullScreen
  {
    PresentSettings(true, false)
  }

  /** `Transition()`: an animated push. */
  function DefaultTransition(): (t: Transition)
    ensures t.kind == Push && t.animated
  {
    Transition(Push, true)
  }

  /** `.reset()` does not go backwards; `.present()` presents with the default settings. */
  lemma DefaultCaseArguments()
    ensures Reset(false).backwards == false
    ensures Present(DefaultPresentSettings()).settings.inNewNavigationController
  {
  }
}

/** The navigation-controller delegate that hands out the custom animator registered for a screen. */
module CustomTransitions {
  import opened Wrappers
  import opened Transitions

  datatype Operation = PushOperation | PopOperation | NoOperation

  class CustomTransitionManager {
    /** The animator registered for each screen. */
    var animators: map<Screen, Animator>

    constructor ()
      ensures animators == map[]
    {
      animators := map[];
    }

    /** Registers `value` for `screen`, replacing any animator registered before. */
    method Add(value: Animator, screen: Screen)
      modifies this
      ensures animators == old(animators)[screen := value]
    {
      animators := animators[screen := value];
    }

    /**
     * The animation controller for a navigation operation: on a push, the animator of the
     * destination, flagged as pushing; on a pop, the animator of the screen being left,
     * flagged as popping; otherwise none.
     */
    method AnimationController(operation: Operation, from: Screen, to: Screen) returns (r: Option<Animator>)
      modifies animators.Values
      ensures operation == PushOperation && to in animators ==> r == Some(animators[to]) && r.value.isPushing
      ensures operation == PopOperation && from in animators ==> r == Some(animators[from]) && !r.value.isPushing
      ensures (operation == NoOperation || (operation == PushOperation && to !in animators)
               || (operation == PopOperation && from !in animators)) ==> r == None
      ensures forall a :: a in animators.Values && Some(a) != r ==> a.isPushing == old(a.isPushing)
    {
      if operation == PushOperation && to in animators {
        var animator := animators[to];
        animator.SetPushing(true);
        r := Some(animator);
      } else if operation == PopOperation && from in animators {
        var animator := animators[from];
        animator.SetPushing(false);
        r := Some(animator);
      } else {
        r := None;
      }
    }
  }

  /** The manager attached to each navigation controller, created on first use. */
  class TransitionManagers {
    var managers: map<StackId, CustomTransitionManager>

    constructor ()
      ensures managers == map[]
    {
      managers := map[];
    }

    /** The navigation controller's manager: the one attached before, or a new empty one attached now. */
    method ManagerFor(stack: StackId) returns (m: CustomTransitionManager)
      modifies this
      ensures stack in old(managers) ==> m == old(managers)[stack] && managers == old(managers)
      ensures stack !in old(managers) ==> fresh(m) && m.animators == map[] && managers == old(managers)[stack := m]
    {
      if stack in managers {
        m := managers[stack];
      } else {
        m := new CustomTransitionManager();
        managers := managers[stack := m];
      }
    }
  }
}
