/**
 * The coordinators of an application and the navigation stacks they drive. Each coordinator
 * is a node of the arena `nodes`; `BaseCoordinator` and `TabbarCoordinator` are the same
 * class here, a tab bar being a node with tab state. A navigation controller is reduced to
 * its stack of screens in `stacks`. Calls into UIKit that do more than change a stack
 * (presenting, attaching the close button) and every call of a coordinator's `start()` hook
 * are recorded in `calls`, in order.
 */
module Coordination {
  import opened Wrappers
  import opened Transitions
  import opened Seqs
  import opened CoordinatorTree
  import opened TabSwitching

  datatype Call =
    | Started(coordinator: Id)
    | Pushed(stack: StackId, screen: Screen, animated: bool)
    | StackSet(stack: StackId, screens: seq<Screen>, animated: bool)
    | Popped(stack: StackId, animated: bool)
    | PresentedScreen(from: StackId, screen: Screen, fullScreen: bool, animated: bool)
    | PresentedStack(from: StackId, presented: StackId, fullScreen: bool, animated: bool)
    | CloseButtonAttached(screen: Screen, dismisses: StackId, animated: bool)

  /** The screens of a navigation controller; one that does not exist yet has none. */
  function Screens(stacks: map<StackId, seq<Screen>>, s: StackId): seq<Screen>
  {
    if s in stacks then stacks[s] else []
  }

  function NewNode(tabbar: bool): Node
  {
    Node(None, [], None, None, None, if tabbar then Some(TabState(None, false, map[])) else None)
  }

  /** What `show` can change: the tree, the navigation stacks, the next free stack and the calls made. */
  datatype Snapshot = Snapshot(nodes: Tree, stacks: map<StackId, seq<Screen>>, nextStack: StackId, calls: seq<Call>)

  /** The next free stack after a resolution: one more when a controller was created. */
  function NextAfter(h: Handle, next: StackId): StackId
  {
    if h.CreateAt? then next + 1 else next
  }

  /**
   * The `navigationController` getter read on `id`: the controller `id` resolves to; one is
   * created, empty, and stored on the parentless node when there is none on the way up.
   */
  ghost predicate ReadsController(b: Snapshot, id: Id, fuel: nat, s: StackId, a: Snapshot)
  {
    var h := Resolve(b.nodes, id, fuel);
    s == ResolvedStack(h, b.nextStack)
    && a.nodes == AfterResolve(b.nodes, h, s)
    && a.stacks == b.stacks[s := Screens(b.stacks, s)]
    && a.nextStack == NextAfter(h, b.nextStack)
    && a.calls == b.calls
  }

  /** `.push`: the screen goes on top of the stack `id` resolves to. */
  ghost predicate Pushes(b: Snapshot, id: Id, screen: Screen, animated: bool, fuel: nat, live: StackId, a: Snapshot)
  {
    var h := Resolve(b.nodes, id, fuel);
    live == ResolvedStack(h, b.nextStack)
    && a.nodes == AfterResolve(b.nodes, h, live)
    && a.stacks == b.stacks[live := Screens(b.stacks, live) + [screen]]
    && a.nextStack == NextAfter(h, b.nextStack)
    && a.calls == b.calls + [Pushed(live, screen, animated)]
  }

  /** `.present` in place: the stack is left as it is and the screen is presented from it. */
  ghost predicate PresentsInPlace(b: Snapshot, id: Id, screen: Screen, fullScreen: bool, animated: bool, fuel: nat,
                                  live: StackId, a: Snapshot)
  {
    var h := Resolve(b.nodes, id, fuel);
    live == ResolvedStack(h, b.nextStack)
    && a.nodes == AfterResolve(b.nodes, h, live)
    && a.stacks == b.stacks[live := Screens(b.stacks, live)]
    && a.nextStack == NextAfter(h, b.nextStack)
    && a.calls == b.calls + [PresentedScreen(live, screen, fullScreen, animated)]
  }

  /**
   * `.present` in a new navigation controller: a controller holding just the screen is made
   * first, presented from the stack `id` resolves to, and becomes the node's own; the close
   * button that dismisses it is attached to the screen.
   */
  ghost predicate PresentsNewStack(b: Snapshot, id: Id, screen: Screen, fullScreen: bool, animated: bool, fuel: nat,
                                   live: StackId, a: Snapshot)
  {
    var h := Resolve(b.nodes, id, fuel);
    var presented := b.nextStack;
    var resolved := AfterResolve(b.nodes, h, live);
    id in resolved
    && live == ResolvedStack(h, b.nextStack + 1)
    && live != presented
    && a.nodes == resolved[id := resolved[id].(nav := Some(presented))]
    && a.stacks == b.stacks[presented := [screen]][live := Screens(b.stacks, live)]
    && a.nextStack == NextAfter(h, b.nextStack + 1)
    && a.calls == b.calls + [PresentedStack(live, presented, fullScreen, animated),
                             CloseButtonAttached(screen, presented, animated)]
  }

  /**
   * `.reset`: the node's parent becomes its root, then the stack it resolves to becomes
   * exactly `[screen]`, going through `[screen, last]` and an animated pop when going
   * backwards, animated, from a non-empty stack.
   */
  ghost predicate Resets(b: Snapshot, id: Id, screen: Screen, backwards: bool, animated: bool, fuel: nat,
                         live: StackId, a: Snapshot)
  {
    id in b.nodes && Lineage(b.nodes, id, fuel).Some?
    && var reparented := Reparented(b.nodes, id, fuel);
       var h := Resolve(reparented, id, 1);
       var previous := Screens(b.stacks, live);
       live == ResolvedStack(h, b.nextStack)
       && a.nodes == AfterResolve(reparented, h, live)
       && a.stacks == b.stacks[live := [screen]]
       && a.nextStack == NextAfter(h, b.nextStack)
       && a.calls == b.calls +
          (if backwards && previous != [] && animated
           then [StackSet(live, [screen, Last(previous)], false), Popped(live, true)]
           else [StackSet(live, [screen], animated)])
  }

  lemma PushesIntro(b: Snapshot, m: Snapshot, id: Id, screen: Screen, animated: bool, fuel: nat, live: StackId, a: Snapshot)
    requires ReadsController(b, id, fuel, live, m) && live in m.stacks
    requires a == m.(stacks := m.stacks[live := m.stacks[live] + [screen]], calls := m.calls + [Pushed(live, screen, animated)])
    ensures Pushes(b, id, screen, animated, fuel, live, a)
  {
    assert m.stacks[live] == Screens(b.stacks, live);
  }

  lemma PresentsInPlaceIntro(b: Snapshot, m: Snapshot, id: Id, screen: Screen, fullScreen: bool, animated: bool,
                             fuel: nat, live: StackId, a: Snapshot)
    requires ReadsController(b, id, fuel, live, m)
    requires a == m.(calls := m.calls + [PresentedScreen(live, screen, fullScreen, animated)])
    ensures PresentsInPlace(b, id, screen, fullScreen, animated, fuel, live, a)
  {
  }

  lemma PresentsNewStackIntro(b: Snapshot, b1: Snapshot, m: Snapshot, id: Id, screen: Screen, fullScreen: bool,
                              animated: bool, fuel: nat, live: StackId, a: Snapshot)
    requires id in b.nodes
    requires Resolve(b.nodes, id, fuel).Own? ==> Resolve(b.nodes, id, fuel).stack < b.nextStack
    requires b1 == b.(stacks := b.stacks[b.nextStack := [screen]], nextStack := b.nextStack + 1)
    requires ReadsController(b1, id, fuel, live, m) && id in m.nodes
    requires a == m.(nodes := m.nodes[id := m.nodes[id].(nav := Some(b.nextStack))],
                     calls := m.calls + [PresentedStack(live, b.nextStack, fullScreen, animated),
                                         CloseButtonAttached(screen, b.nextStack, animated)])
    ensures PresentsNewStack(b, id, screen, fullScreen, animated, fuel, live, a)
  {
    assert live != b.nextStack;
    assert Screens(b1.stacks, live) == Screens(b.stacks, live);
  }

  lemma RestoresIntro(b: Snapshot, m: Snapshot, id: Id, index: int, fuel: nat, s: StackId, a: Snapshot)
    requires id in b.nodes && b.nodes[id].tab.Some? && index in b.nodes[id].tab.value.cache
    requires ReadsController(b, id, fuel, s, m) && id in m.nodes && m.nodes[id].tab == b.nodes[id].tab
    requires var ts := b.nodes[id].tab.value;
             a == m.(stacks := m.stacks[s := ts.cache[index]], calls := m.calls + [StackSet(s, ts.cache[index], false)],
                     nodes := m.nodes[id := m.nodes[id].(tab := Some(ts.(cache := ts.cache - {index})))])
    ensures Restores(b, id, index, fuel, s, a)
  {
  }

  /** `Resets` from the effects of its three steps: re-pointing, reading the controller, replacing the stack. */
  lemma ResetsIntro(b: Snapshot, id: Id, screen: Screen, backwards: bool, animated: bool, fuel: nat,
                    live: StackId, a: Snapshot)
    requires id in b.nodes && Lineage(b.nodes, id, fuel).Some?
    requires var reparented := Reparented(b.nodes, id, fuel);
             var h := Resolve(reparented, id, 1);
             var previous := Screens(b.stacks, live);
             live == ResolvedStack(h, b.nextStack)
             && a.nodes == AfterResolve(reparented, h, live)
             && a.stacks == b.stacks[live := Screens(b.stacks, live)][live := [screen]]
             && a.nextStack == NextAfter(h, b.nextStack)
             && a.calls == b.calls +
                (if backwards && previous != [] && animated
                 then [StackSet(live, [screen, Last(previous)], false), Popped(live, true)]
                 else [StackSet(live, [screen], animated)])
    ensures Resets(b, id, screen, backwards, animated, fuel, live, a)
  {
    assert b.stacks[live := Screens(b.stacks, live)][live := [screen]] == b.stacks[live := [screen]];
  }

  /** `show(viewController:)` once the node's transition is stored in `b`: one branch per kind. */
  ghost predicate Shows(b: Snapshot, id: Id, screen: Screen, fuel: nat, live: StackId, a: Snapshot)
  {
    id in b.nodes && b.nodes[id].transition.Some?
    && var t := b.nodes[id].transition.value;
       match t.kind
       case Push => Pushes(b, id, screen, t.animated, fuel, live, a)
       case Present(settings) =>
         if settings.inNewNavigationController
         then PresentsNewStack(b, id, screen, settings.fullScreen, t.animated, fuel, live, a)
         else PresentsInPlace(b, id, screen, settings.fullScreen, t.animated, fuel, live, a)
       case Reset(backwards) => Resets(b, id, screen, backwards, t.animated, fuel, live, a)
       case NoTransition => a == b
       case Custom(_) => false
  }

  /**
   * `startTab(coordinator:at:reset:)` on the tab bar `id`. The navigation controller is read
   * when the active tab's stack is looked at or a cached stack is restored; the tab state
   * becomes what `TabSwitch` decides. A restored stack replaces the live one, unanimated;
   * otherwise the child is started with a reset transition.
   */
  ghost predicate StartsTab(b: Snapshot, id: Id, child: Id, index: int, reset: bool, fuel: nat,
                            live: StackId, a: Snapshot)
  {
    id in b.nodes && child in b.nodes && b.nodes[id].tab.Some?
    && var ts := b.nodes[id].tab.value;
       var readsStack := ReadsLiveStack(ts) || index in ts.cache;
       var h := Resolve(b.nodes, id, fuel);
       var resolved := if readsStack then AfterResolve(b.nodes, h, live) else b.nodes;
       var o := TabSwitch(ts, Screens(b.stacks, live), index, reset);
       id in resolved
       && var tabbed := resolved[id := resolved[id].(tab := Some(o.state))];
          (readsStack ==> live == ResolvedStack(h, b.nextStack))
          && a.nextStack == (if readsStack then NextAfter(h, b.nextStack) else b.nextStack)
          && match o.restored
             case Some(screens) =>
               a.nodes == tabbed
               && a.stacks == b.stacks[live := screens]
               && a.calls == b.calls + [StackSet(live, screens, false)]
             case None =>
               a.nodes == StartedTree(tabbed, id, child, Transition(Reset(o.animated), o.animated))
               && a.stacks == (if readsStack then b.stacks[live := Screens(b.stacks, live)] else b.stacks)
               && a.calls == b.calls + [Started(child)]
  }

  /**
   * The part of `startTab` before the cache lookup: when the active tab's stack is looked at
   * (the navigation controller is read for it), it is cached, or its entry dropped when the
   * tab is reselected with screens on it; `shouldReset` is stored.
   */
  ghost predicate Stows(b: Snapshot, id: Id, index: int, reset: bool, fuel: nat, live: StackId, animated: bool,
                        a: Snapshot)
  {
    id in b.nodes && b.nodes[id].tab.Some?
    && var ts := b.nodes[id].tab.value;
       var h := Resolve(b.nodes, id, fuel);
       var resolved := if ReadsLiveStack(ts) then AfterResolve(b.nodes, h, live) else b.nodes;
       var o := TabSwitch(ts, Screens(b.stacks, live), index, reset);
       id in resolved
       && (ReadsLiveStack(ts) ==> live == ResolvedStack(h, b.nextStack) && Resolve(a.nodes, id, fuel) == Own(live))
       && a.nextStack == (if ReadsLiveStack(ts) then NextAfter(h, b.nextStack) else b.nextStack)
       && a.stacks == (if ReadsLiveStack(ts) then b.stacks[live := Screens(b.stacks, live)] else b.stacks)
       && a.nodes == resolved[id := resolved[id].(tab := Some(ts.(shouldReset := reset,
                                                                  cache := StowedCache(ts, Screens(b.stacks, live), index))))]
       && a.calls == b.calls
       && animated == o.animated
  }

  /** The cache-hit path of `startTab`: the cached stack replaces the live one, unanimated, and leaves the cache. */
  ghost predicate Restores(b: Snapshot, id: Id, index: int, fuel: nat, s: StackId, a: Snapshot)
  {
    id in b.nodes && b.nodes[id].tab.Some? && index in b.nodes[id].tab.value.cache
    && var h := Resolve(b.nodes, id, fuel);
       var ts := b.nodes[id].tab.value;
       var resolved := AfterResolve(b.nodes, h, s);
       id in resolved
       && s == ResolvedStack(h, b.nextStack)
       && a.nextStack == NextAfter(h, b.nextStack)
       && a.nodes == resolved[id := resolved[id].(tab := Some(ts.(cache := ts.cache - {index})))]
       && a.stacks == b.stacks[s := ts.cache[index]]
       && a.calls == b.calls + [StackSet(s, ts.cache[index], false)]
  }

  /** The deferred `activeIndex = index` of `startTab`. */
  function Activated(nodes: Tree, id: Id, index: int): (r: Tree)
    requires id in nodes && nodes[id].tab.Some?
    ensures r.Keys == nodes.Keys && r[id].tab.Some? && r[id].tab.value.activeIndex == Some(index)
    ensures r[id].tab.value.(activeIndex := nodes[id].tab.value.activeIndex) == nodes[id].tab.value
    ensures r[id].(tab := nodes[id].tab) == nodes[id]
    ensures forall x :: x in nodes && x != id ==> r[x] == nodes[x]
  {
    nodes[id := nodes[id].(tab := Some(nodes[id].tab.value.(activeIndex := Some(index))))]
  }

  /** Storing tab state and storing a created controller commute. */
  lemma TabThenResolve(nodes: Tree, id: Id, x: Option<TabState>, h: Handle, s: StackId)
    requires id in nodes
    ensures var resolved := AfterResolve(nodes, h, s);
            id in resolved
            && AfterResolve(nodes[id := nodes[id].(tab := x)], h, s) == resolved[id := resolved[id].(tab := x)]
  {
  }

  /** `startTab` along the cache-hit path meets `StartsTab`. */
  lemma StartsTabFromCache(b: Snapshot, m: Snapshot, r: Snapshot, id: Id, child: Id, index: int, reset: bool,
                           fuel: nat, live0: StackId, animated: bool, live: StackId)
    requires child in b.nodes
    requires Stows(b, id, index, reset, fuel, live0, animated, m)
    requires Restores(m, id, index, fuel, live, r)
    requires !ReadsLiveStack(b.nodes[id].tab.value) ==> Resolve(m.nodes, id, fuel) == Resolve(b.nodes, id, fuel)
    ensures StartsTab(b, id, child, index, reset, fuel, live, r.(nodes := Activated(r.nodes, id, index)))
  {
    var ts := b.nodes[id].tab.value;
    var o := TabSwitch(ts, Screens(b.stacks, live), index, reset);
    var resolved := ResolvedAfterCache(b, m, r, id, index, reset, fuel, live0, animated, live);
    assert Activated(r.nodes, id, index) == resolved[id := resolved[id].(tab := Some(o.state))];
  }

  /** The tree `StartsTab` resolves along the cache-hit path, and the tab state it ends with. */
  lemma ResolvedAfterCache(b: Snapshot, m: Snapshot, r: Snapshot, id: Id, index: int, reset: bool,
                           fuel: nat, live0: StackId, animated: bool, live: StackId) returns (resolved: Tree)
    requires Stows(b, id, index, reset, fuel, live0, animated, m)
    requires Restores(m, id, index, fuel, live, r)
    requires !ReadsLiveStack(b.nodes[id].tab.value) ==> Resolve(m.nodes, id, fuel) == Resolve(b.nodes, id, fuel)
    ensures var ts := b.nodes[id].tab.value;
            var o := TabSwitch(ts, Screens(b.stacks, live), index, reset);
            var h := Resolve(b.nodes, id, fuel);
            resolved == AfterResolve(b.nodes, h, live) && id in resolved
            && live == ResolvedStack(h, b.nextStack) && r.nextStack == NextAfter(h, b.nextStack)
            && o.restored.Some? && r.stacks == b.stacks[live := o.restored.value]
            && r.calls == b.calls + [StackSet(live, o.restored.value, false)]
            && r.nodes[id := r.nodes[id].(tab := Some(o.state))] == resolved[id := resolved[id].(tab := Some(o.state))]
  {
    var ts := b.nodes[id].tab.value;
    var h := Resolve(b.nodes, id, fuel);
    var stowed := StowedCache(ts, Screens(b.stacks, live0), index);
    resolved := AfterResolve(b.nodes, h, live);
    if ReadsLiveStack(ts) {
      assert live == live0 && m.nodes[id].tab.value.cache == stowed;
    } else {
      assert stowed == ts.cache;
      TabThenResolve(b.nodes, id, m.nodes[id].tab, h, live);
    }
  }

  /** `startTab` along the path that starts the child meets `StartsTab`. */
  lemma StartsTabWithChild(b: Snapshot, m: Snapshot, id: Id, child: Id, index: int, reset: bool,
                           fuel: nat, live: StackId, animated: bool)
    requires child in b.nodes
    requires Stows(b, id, index, reset, fuel, live, animated, m)
    requires index !in m.nodes[id].tab.value.cache
    ensures var started := StartedTree(m.nodes, id, child, Transition(Reset(animated), animated));
            StartsTab(b, id, child, index, reset, fuel, live,
                      m.(nodes := Activated(started, id, index), calls := m.calls + [Started(child)]))
  {
    var ts := b.nodes[id].tab.value;
    var h := Resolve(b.nodes, id, fuel);
    var resolved := if ReadsLiveStack(ts) then AfterResolve(b.nodes, h, live) else b.nodes;
    var o := TabSwitch(ts, Screens(b.stacks, live), index, reset);
    assert o.restored.None? && o.animated == animated;
    var stowed := ts.(shouldReset := reset, cache := StowedCache(ts, Screens(b.stacks, live), index));
    assert stowed.(activeIndex := Some(index)) == o.state;
    var tabbed := resolved[id := resolved[id].(tab := Some(o.state))];
    assert tabbed == Activated(m.nodes, id, index);
    StartThenActivate(m.nodes, id, child, Transition(Reset(animated), animated), index);
  }

  /** Starting a child and the deferred `activeIndex` assignment commute. */
  lemma StartThenActivate(nodes: Tree, id: Id, child: Id, t: Transition, index: int)
    requires id in nodes && child in nodes && nodes[id].tab.Some?
    ensures Activated(StartedTree(nodes, id, child, t), id, index)
            == StartedTree(Activated(nodes, id, index), id, child, t)
  {
  }

  /** `show` re-links no child: every coordinator keeps its children and its tab state. */
  lemma ShowKeepsChildren(b: Snapshot, id: Id, screen: Screen, fuel: nat, live: StackId, a: Snapshot)
    requires Shows(b, id, screen, fuel, live, a)
    ensures forall x :: x in b.nodes ==> x in a.nodes && a.nodes[x].children == b.nodes[x].children
                                         && a.nodes[x].tab == b.nodes[x].tab
  {
  }

  /**
   * After a push or an in-place presentation the node reads back the controller the screen
   * went to, so a later `show` acts on the same stack.
   */
  lemma ShowResolvesToLive(b: Snapshot, id: Id, screen: Screen, fullScreen: bool, animated: bool, fuel: nat,
                           live: StackId, a: Snapshot)
    requires Pushes(b, id, screen, animated, fuel, live, a)
             || PresentsInPlace(b, id, screen, fullScreen, animated, fuel, live, a)
    requires Resolve(b.nodes, id, fuel) != Unresolved
    ensures Resolve(a.nodes, id, fuel) == Own(live)
  {
    var h := Resolve(b.nodes, id, fuel);
    if h.CreateAt? {
      ResolveAfterCreate(b.nodes, id, fuel, live);
    }
  }

  /** After a presentation in a new controller the node's own controller is the presented one. */
  lemma PresentedStackBecomesOwn(b: Snapshot, id: Id, screen: Screen, fullScreen: bool, animated: bool, fuel: nat,
                                 live: StackId, a: Snapshot, f: nat)
    requires PresentsNewStack(b, id, screen, fullScreen, animated, fuel, live, a)
    ensures Resolve(a.nodes, id, f) == Own(b.nextStack) && a.stacks[b.nextStack] == [screen]
  {
  }

  /**
   * A reset points the node's parent at its root. On a node that had no parent, the root is
   * the node itself: it becomes its own parent, and from then on no walk up from it ends, so
   * `rootCoordinator` never returns for it.
   */
  lemma ResetRepointsParent(b: Snapshot, id: Id, screen: Screen, backwards: bool, animated: bool, fuel: nat,
                            live: StackId, a: Snapshot)
    requires Resets(b, id, screen, backwards, animated, fuel, live, a)
    ensures id in a.nodes && a.nodes[id].parent == Some(Last(Lineage(b.nodes, id, fuel).value))
    ensures b.nodes[id].parent.None? ==> a.nodes[id].parent == Some(id) && forall f :: Lineage(a.nodes, id, f) == None
  {
    if b.nodes[id].parent.None? {
      forall f: nat
        ensures Lineage(a.nodes, id, f) == None
      {
        SelfParentHasNoLineage(a.nodes, id, f);
      }
    }
  }

  /** Identities are handed out in order, and every own navigation controller exists. */
  ghost predicate Consistent(nodes: Tree, stacks: map<StackId, seq<Screen>>, nextId: Id, nextStack: StackId)
  {
    (forall x :: x in nodes ==> x < nextId)
    && (forall s :: s in stacks ==> s < nextStack)
    && (forall x :: x in nodes && nodes[x].nav.Some? ==> nodes[x].nav.value in stacks)
  }

  /** Changing anything but the own controllers of existing nodes keeps the tree consistent. */
  lemma ConsistentRelinked(before: Tree, after: Tree, stacks: map<StackId, seq<Screen>>, nextId: Id, nextStack: StackId)
    requires Consistent(before, stacks, nextId, nextStack)
    requires before.Keys == after.Keys && forall x :: x in before ==> after[x].nav == before[x].nav
    ensures Consistent(after, stacks, nextId, nextStack)
  {
  }

  /** Replacing the screens of an existing controller keeps the tree consistent. */
  lemma ConsistentRestacked(nodes: Tree, stacks: map<StackId, seq<Screen>>, nextId: Id, nextStack: StackId,
                            s: StackId, screens: seq<Screen>)
    requires Consistent(nodes, stacks, nextId, nextStack) && s in stacks
    ensures Consistent(nodes, stacks[s := screens], nextId, nextStack)
  {
  }

  /** `StartedTree` as the three assignments of `start(coordinator:transition:)`. */
  lemma StartedTreeSteps(before: Tree, joined: Tree, after: Tree, id: Id, child: Id, t: Transition)
    requires id in before && child in before
    requires joined == before[id := before[id].(children := Include(before[id].children, child))]
    requires after == joined[child := joined[child].(transition := Some(t))][child := joined[child].(transition := Some(t), parent := Some(id))]
    ensures after == StartedTree(before, id, child, t)
    ensures forall x :: x in before ==> after[x].nav == before[x].nav
  {
  }

  class Coordinators {
    var nodes: Tree
    var stacks: map<StackId, seq<Screen>>
    var nextId: Id
    var nextStack: StackId
    var calls: seq<Call>

    ghost predicate Valid()
      reads this
    {
      Consistent(nodes, stacks, nextId, nextStack)
    }

    /** The part of the state `show` acts on. */
    ghost function State(): Snapshot
      reads this
    {
      Snapshot(nodes, stacks, nextStack, calls)
    }

    constructor ()
      ensures Valid() && nodes == map[] && stacks == map[] && calls == []
    {
      nodes := map[];
      stacks := map[];
      nextId := 0;
      nextStack := 0;
      calls := [];
    }

    /** `BaseCoordinator()` or, with `tabbar`, `TabbarCoordinator()`: no parent, no children, nothing stored. */
    method NewCoordinator(tabbar: bool) returns (id: Id)
      requires Valid()
      modifies this
      ensures Valid()
      ensures id !in old(nodes) && nodes == old(nodes)[id := NewNode(tabbar)]
      ensures stacks == old(stacks) && nextStack == old(nextStack) && calls == old(calls)
    {
      id := nextId;
      nextId := nextId + 1;
      nodes := nodes[id := NewNode(tabbar)];
    }

    /** A new navigation controller holding `screens`. */
    method NewNavigationController(screens: seq<Screen>) returns (s: StackId)
      requires Valid()
      modifies this
      ensures Valid()
      ensures s !in old(stacks) && stacks == old(stacks)[s := screens]
      ensures s == old(nextStack) && nextStack == old(nextStack) + 1
      ensures nodes == old(nodes) && nextId == old(nextId) && calls == old(calls)
    {
      s := nextStack;
      nextStack := nextStack + 1;
      stacks := stacks[s := screens];
    }

    /** The `navigationController` setter: the node's own controller becomes `s`. */
    method SetNavigationController(id: Id, s: StackId)
      requires Valid() && id in nodes && s in stacks
      modifies this
      ensures Valid()
      ensures nodes == old(nodes)[id := old(nodes)[id].(nav := Some(s))]
      ensures stacks == old(stacks) && nextId == old(nextId) && nextStack == old(nextStack) && calls == old(calls)
    {
      nodes := nodes[id := nodes[id].(nav := Some(s))];
    }

    /** `positionIndex`: the stored index, 0 while none was stored. */
    function PositionIndex(id: Id): (r: int)
      reads this
      requires id in nodes
      ensures nodes[id].position.None? ==> r == 0
      ensures nodes[id].position.Some? ==> r == nodes[id].position.value
    {
      nodes[id].position.GetOr(0)
    }

    method SetPositionIndex(id: Id, index: int)
      requires Valid() && id in nodes
      modifies this
      ensures nodes == old(nodes)[id := old(nodes)[id].(position := Some(index))]
      ensures Valid() && PositionIndex(id) == index
      ensures stacks == old(stacks) && nextId == old(nextId) && nextStack == old(nextStack) && calls == old(calls)
    {
      nodes := nodes[id := nodes[id].(position := Some(index))];
    }

    /**
     * The `transition` getter: the stored transition; on the first read, the default
     * `Transition()`, which is stored so that later reads return it.
     */
    method GetTransition(id: Id) returns (t: Transition)
      requires Valid() && id in nodes
      modifies this
      ensures Valid()
      ensures old(nodes)[id].transition.Some? ==> t == old(nodes)[id].transition.value && nodes == old(nodes)
      ensures old(nodes)[id].transition.None? ==> t == DefaultTransition()
      ensures nodes == old(nodes)[id := old(nodes)[id].(transition := Some(t))]
      ensures stacks == old(stacks) && nextId == old(nextId) && nextStack == old(nextStack) && calls == old(calls)
    {
      match nodes[id].transition {
        case Some(stored) =>
          t := stored;
        case None =>
          t := DefaultTransition();
          nodes := nodes[id := nodes[id].(transition := Some(t))];
      }
    }

    method SetTransition(id: Id, t: Transition)
      requires Valid() && id in nodes
      modifies this
      ensures Valid()
      ensures nodes == old(nodes)[id := old(nodes)[id].(transition := Some(t))]
      ensures stacks == old(stacks) && nextId == old(nextId) && nextStack == old(nextStack) && calls == old(calls)
    {
      nodes := nodes[id := nodes[id].(transition := Some(t))];
    }

    /**
     * The `navigationController` getter: the node's own controller; otherwise its parent's;
     * otherwise a new empty controller, stored on the node. Afterwards the node resolves to
     * the returned controller, so a second read returns the same one.
     */
    method NavigationController(id: Id, ghost fuel: nat) returns (s: StackId)
      requires Valid() && Resolve(nodes, id, fuel) != Unresolved
      modifies this
      decreases fuel
      ensures Valid() && s in stacks && nextId == old(nextId)
      ensures ReadsController(old(State()), id, fuel, s, State())
      ensures Resolve(nodes, id, fuel) == Own(s)
    {
      var n := nodes[id];
      if n.nav.Some? {
        s := n.nav.value;
      } else if n.parent.Some? {
        s := NavigationController(n.parent.value, fuel - 1);
        assert nodes[id] == n;
      } else {
        ResolveAfterCreate(nodes, id, fuel, nextStack);
        s := nextStack;
        nextStack := nextStack + 1;
        stacks := stacks[s := []];
        nodes := nodes[id := n.(nav := Some(s))];
      }
    }

    /** A controller a node resolves to exists already. */
    lemma ResolvedStackExists(id: Id, fuel: nat)
      requires Valid()
      ensures Resolve(nodes, id, fuel).Own? ==> Resolve(nodes, id, fuel).stack in stacks
      ensures Resolve(nodes, id, fuel).Own? ==> Resolve(nodes, id, fuel).stack < nextStack
    {
      if Resolve(nodes, id, fuel).Own? {
        var owner := ResolvedIsOwned(nodes, id, fuel);
      }
    }

    /** `rootCoordinator`: follows parent links up to the node without a parent. */
    method RootCoordinator(id: Id, ghost fuel: nat) returns (root: Id)
      requires Lineage(nodes, id, fuel).Some?
      ensures root == Last(Lineage(nodes, id, fuel).value)
      ensures root in nodes && nodes[root].parent.None?
    {
      ghost var path := Lineage(nodes, id, fuel).value;
      ghost var k := 0;
      root := id;
      while nodes[root].parent.Some?
        invariant 0 <= k < |path| && root == path[k]
        invariant k < |path| - 1 ==> nodes[root].parent == Some(path[k + 1])
        decreases |path| - k
      {
        root := nodes[root].parent.value;
        k := k + 1;
      }
    }

    /** `topCoordinator`: the last child's top coordinator, or the node itself when it has no children. */
    function TopCoordinator(id: Id, ghost fuel: nat): (top: Id)
      reads this
      requires LastChildBounded(nodes, id, fuel)
      decreases fuel
      ensures top in nodes && nodes[top].children == []
      ensures LastChildWalk(nodes, id, top, fuel)
    {
      if nodes[id].children == [] then id else TopCoordinator(Last(nodes[id].children), fuel - 1)
    }

    /**
     * `show(viewController:)`: applies the node's transition to its navigation stack. `live`
     * is the controller the transition acts on (the one presented from, for a presentation).
     */
    method Show(id: Id, screen: Screen, ghost fuel: nat) returns (ghost live: StackId)
      requires Valid() && CanShow(nodes, id, fuel)
      modifies this
      ensures Valid() && nextId == old(nextId)
      ensures Shows(old(State()).(nodes := WithTransition(old(nodes), id)), id, screen, fuel, live, State())
    {
      live := 0;
      SameLinksSameWalks(nodes, WithTransition(nodes, id), id, fuel);
      var t := GetTransition(id);
      match t.kind {
        case Present(settings) =>
          if !settings.inNewNavigationController {
            live := PresentInPlace(id, screen, settings.fullScreen, t.animated, fuel);
          } else {
            live := PresentInNewStack(id, screen, settings.fullScreen, t.animated, fuel);
          }
        case Push =>
          live := PushScreen(id, screen, t.animated, fuel);
        case Reset(backwards) =>
          live := ResetStack(id, screen, backwards, t.animated, fuel);
        case NoTransition =>
        case Custom(_) =>
          assert false;
      }
    }

    /** The `.push` branch of `show`. */
    method PushScreen(id: Id, screen: Screen, animated: bool, ghost fuel: nat) returns (live: StackId)
      requires Valid() && Resolve(nodes, id, fuel) != Unresolved
      modifies this
      ensures Valid() && nextId == old(nextId)
      ensures Pushes(old(State()), id, screen, animated, fuel, live, State())
    {
      ghost var b := State();
      live := NavigationController(id, fuel);
      ghost var m := State();
      stacks := stacks[live := stacks[live] + [screen]];
      calls := calls + [Pushed(live, screen, animated)];
      PushesIntro(b, m, id, screen, animated, fuel, live, State());
    }

    /** The `.present` branch of `show` without a new navigation controller. */
    method PresentInPlace(id: Id, screen: Screen, fullScreen: bool, animated: bool, ghost fuel: nat) returns (live: StackId)
      requires Valid() && Resolve(nodes, id, fuel) != Unresolved
      modifies this
      ensures Valid() && nextId == old(nextId)
      ensures PresentsInPlace(old(State()), id, screen, fullScreen, animated, fuel, live, State())
    {
      ghost var b := State();
      live := NavigationController(id, fuel);
      ghost var m := State();
      calls := calls + [PresentedScreen(live, screen, fullScreen, animated)];
      PresentsInPlaceIntro(b, m, id, screen, fullScreen, animated, fuel, live, State());
    }

    /**
     * The `.present` branch of `show` with a new navigation controller: a controller holding
     * just the screen is presented and becomes the node's own; the close button is attached.
     */
    method PresentInNewStack(id: Id, screen: Screen, fullScreen: bool, animated: bool, ghost fuel: nat)
      returns (live: StackId)
      requires Valid() && Resolve(nodes, id, fuel) != Unresolved
      modifies this
      ensures Valid() && nextId == old(nextId)
      ensures PresentsNewStack(old(State()), id, screen, fullScreen, animated, fuel, live, State())
    {
      ghost var b := State();
      ResolvedStackExists(id, fuel);
      var presented := NewNavigationController([screen]);
      ghost var b1 := State();
      live := NavigationController(id, fuel);
      ghost var m := State();
      calls := calls + [PresentedStack(live, presented, fullScreen, animated)];
      SetNavigationController(id, presented);
      calls := calls + [CloseButtonAttached(screen, presented, animated)];
      PresentsNewStackIntro(b, b1, m, id, screen, fullScreen, animated, fuel, live, State());
    }

    /**
     * The `.reset` branch of `show`: the node's parent becomes its root (it stays in its old
     * parent's child set), and the resolved stack becomes exactly `[screen]` — going through
     * `[screen, last]` and an animated pop when going backwards, animated, from a non-empty stack.
     */
    method ResetStack(id: Id, screen: Screen, backwards: bool, animated: bool, ghost fuel: nat)
      returns (live: StackId)
      requires Valid() && id in nodes && Lineage(nodes, id, fuel).Some?
      requires nodes[id].parent.Some? || nodes[id].nav.Some?
      modifies this
      ensures Valid() && nextId == old(nextId)
      ensures Resets(old(State()), id, screen, backwards, animated, fuel, live, State())
    {
      ghost var b := State();
      ReparentedResolves(nodes, id, fuel);
      ReparentToRoot(id, fuel);
      ResolvedStackExists(id, 1);
      live := NavigationController(id, 1);
      assert stacks[live] == Screens(b.stacks, live);
      ReplaceStack(live, screen, backwards, animated);
      ResetsIntro(b, id, screen, backwards, animated, fuel, live, State());
    }

    /** `parentCoordinator = rootCoordinator`, the first step of a reset. */
    method ReparentToRoot(id: Id, ghost fuel: nat)
      requires Valid() && id in nodes && Lineage(nodes, id, fuel).Some?
      modifies this
      ensures Valid()
      ensures nodes == Reparented(old(nodes), id, fuel)
      ensures stacks == old(stacks) && nextId == old(nextId) && nextStack == old(nextStack) && calls == old(calls)
    {
      var root := RootCoordinator(id, fuel);
      nodes := nodes[id := nodes[id].(parent := Some(root))];
    }

    /**
     * The stack part of a reset: a backwards, animated reset of a non-empty stack puts the new
     * screen under the last one and pops back to it; otherwise the stack becomes the new screen.
     */
    method ReplaceStack(live: StackId, screen: Screen, backwards: bool, animated: bool)
      requires Valid() && live in stacks
      modifies this
      ensures Valid()
      ensures stacks == old(stacks)[live := [screen]]
      ensures calls == old(calls) +
                (if backwards && old(stacks)[live] != [] && animated
                 then [StackSet(live, [screen, Last(old(stacks)[live])], false), Popped(live, true)]
                 else [StackSet(live, [screen], animated)])
      ensures nodes == old(nodes) && nextId == old(nextId) && nextStack == old(nextStack)
    {
      if backwards && stacks[live] != [] && animated {
        var last := Last(stacks[live]);
        stacks := stacks[live := [screen, last]];
        calls := calls + [StackSet(live, [screen, last], false)];
        stacks := stacks[live := [screen]];
        calls := calls + [Popped(live, true)];
      } else {
        stacks := stacks[live := [screen]];
        calls := calls + [StackSet(live, [screen], animated)];
      }
    }

    /**
     * `start(coordinator:transition:)`: the child joins this node's child set, stores the
     * transition, gets this node as parent, and then its `start()` runs.
     */
    method Start(id: Id, child: Id, t: Transition)
      requires Valid() && id in nodes && child in nodes
      modifies this
      ensures Valid()
      ensures nodes == StartedTree(old(nodes), id, child, t)
      ensures calls == old(calls) + [Started(child)]
      ensures stacks == old(stacks) && nextId == old(nextId) && nextStack == old(nextStack)
    {
      ghost var before := nodes;
      nodes := nodes[id := nodes[id].(children := Include(nodes[id].children, child))];
      ghost var joined := nodes;
      nodes := nodes[child := nodes[child].(transition := Some(t))];
      nodes := nodes[child := nodes[child].(parent := Some(id))];
      calls := calls + [Started(child)];
      StartedTreeSteps(before, joined, nodes, id, child, t);
      ConsistentRelinked(before, nodes, stacks, nextId, nextStack);
    }

    /** `start(coordinator:)`: `start(coordinator:transition:)` with the default `Transition()`. */
    method StartDefault(id: Id, child: Id)
      requires Valid() && id in nodes && child in nodes
      modifies this
      ensures Valid()
      ensures nodes == StartedTree(old(nodes), id, child, DefaultTransition())
      ensures nodes[child].transition == Some(Transition(Push, true))
      ensures calls == old(calls) + [Started(child)]
      ensures stacks == old(stacks) && nextId == old(nextId) && nextStack == old(nextStack)
    {
      Start(id, child, DefaultTransition());
    }

    /** `startTab(coordinator:at:reset:)` on the tab bar `id`; `live` is the controller read, if any. */
    method StartTab(id: Id, child: Id, index: int, reset: bool := false, ghost fuel: nat) returns (ghost live: StackId)
      requires Valid() && id in nodes && child in nodes && nodes[id].tab.Some?
      requires ReadsLiveStack(nodes[id].tab.value) || index in nodes[id].tab.value.cache
               ==> Resolve(nodes, id, fuel) != Unresolved
      modifies this
      ensures Valid() && nextId == old(nextId)
      ensures StartsTab(old(State()), id, child, index, reset, fuel, live, State())
    {
      ghost var b := State();
      var animated;
      animated, live := StowActiveTab(id, index, reset, fuel);
      ghost var m := State();
      ghost var live0 := live;
      var ts := nodes[id].tab.value;
      if index in ts.cache {
        if !ReadsLiveStack(b.nodes[id].tab.value) {
          assert SameLinks(b.nodes, nodes);
          SameLinksSameWalks(b.nodes, nodes, id, fuel);
        }
        live := RestoreTab(id, index, fuel);
        ghost var r := State();
        StartsTabFromCache(b, m, r, id, child, index, reset, fuel, live0, animated, live);
        Activate(id, index);
        assert State() == r.(nodes := Activated(r.nodes, id, index));
      } else {
        Start(id, child, Transition(Reset(animated), animated));
        StartsTabWithChild(b, m, id, child, index, reset, fuel, live, animated);
        Activate(id, index);
      }
    }

    /** The deferred `activeIndex = index` of `startTab`, run on both of its paths. */
    method Activate(id: Id, index: int)
      requires Valid() && id in nodes && nodes[id].tab.Some?
      modifies this
      ensures Valid() && nodes == Activated(old(nodes), id, index)
      ensures stacks == old(stacks) && nextId == old(nextId) && nextStack == old(nextStack) && calls == old(calls)
    {
      var done := nodes[id].tab.value;
      nodes := nodes[id := nodes[id].(tab := Some(done.(activeIndex := Some(index))))];
    }

    /**
     * The part of `startTab` before the cache lookup: the active tab's stack is cached, or its
     * entry dropped when it is reselected with screens on it, and `shouldReset` is stored.
     */
    method StowActiveTab(id: Id, index: int, reset: bool, ghost fuel: nat) returns (animated: bool, ghost live: StackId)
      requires Valid() && id in nodes && nodes[id].tab.Some?
      requires ReadsLiveStack(nodes[id].tab.value) ==> Resolve(nodes, id, fuel) != Unresolved
      modifies this
      ensures Valid() && nextId == old(nextId)
      ensures Stows(old(State()), id, index, reset, fuel, live, animated, State())
    {
      var ts := nodes[id].tab.value;
      var cache := ts.cache;
      animated := false;
      live := 0;
      if ts.activeIndex.Some? && !ts.shouldReset {
        cache, animated, live := LookAtActiveTab(id, index, fuel);
      }
      assert cache == StowedCache(ts, Screens(old(stacks), live), index);
      ts := ts.(cache := cache, shouldReset := reset);
      ghost var resolved := nodes;
      nodes := nodes[id := nodes[id].(tab := Some(ts))];
      SameLinksSameWalks(resolved, nodes, id, fuel);
      assert SameLinks(resolved, nodes);
    }

    /**
     * Lines the active tab's stack is read on: reselecting it with screens on its stack drops
     * its cache entry (the new child's reset is animated when more than one screen was on it);
     * otherwise the stack is cached under the active index.
     */
    method LookAtActiveTab(id: Id, index: int, ghost fuel: nat) returns (cache: map<int, seq<Screen>>, animated: bool, s: StackId)
      requires Valid() && id in nodes && nodes[id].tab.Some? && ReadsLiveStack(nodes[id].tab.value)
      requires Resolve(nodes, id, fuel) != Unresolved
      modifies this
      ensures Valid() && s in stacks
      ensures var h := old(Resolve(nodes, id, fuel));
              var ts := old(nodes)[id].tab.value;
              s == ResolvedStack(h, old(nextStack))
              && nodes == AfterResolve(old(nodes), h, s)
              && stacks == old(stacks)[s := Screens(old(stacks), s)]
              && nextStack == NextAfter(h, old(nextStack))
              && cache == StowedCache(ts, Screens(old(stacks), s), index)
              && animated == TabSwitch(ts, Screens(old(stacks), s), index, false).animated
      ensures Resolve(nodes, id, fuel) == Own(s)
      ensures nextId == old(nextId) && calls == old(calls)
    {
      var ts := nodes[id].tab.value;
      s := NavigationController(id, fuel);
      assert ts == old(nodes)[id].tab.value;
      if index == ts.activeIndex.value && stacks[s] != [] {
        cache := ts.cache - {index};
        animated := |stacks[s]| > 1;
      } else {
        cache := ts.cache[ts.activeIndex.value := stacks[s]];
        animated := false;
      }
    }

    /** The cache-hit path of `startTab`: the cached stack replaces the live one and leaves the cache. */
    method RestoreTab(id: Id, index: int, ghost fuel: nat) returns (s: StackId)
      requires Valid() && id in nodes && nodes[id].tab.Some? && index in nodes[id].tab.value.cache
      requires Resolve(nodes, id, fuel) != Unresolved
      modifies this
      ensures Valid() && nextId == old(nextId)
      ensures Restores(old(State()), id, index, fuel, s, State())
    {
      ghost var b := State();
      var screens := nodes[id].tab.value.cache[index];
      s := NavigationController(id, fuel);
      ghost var m := State();
      ConsistentRestacked(nodes, stacks, nextId, nextStack, s, screens);
      stacks := stacks[s := screens];
      calls := calls + [StackSet(s, screens, false)];
      var ts := nodes[id].tab.value;
      ghost var resolved := nodes;
      nodes := nodes[id := nodes[id].(tab := Some(ts.(cache := ts.cache - {index})))];
      ConsistentRelinked(resolved, nodes, stacks, nextId, nextStack);
      RestoresIntro(b, m, id, index, fuel, s, State());
    }

    /**
     * `removeChildCoordinators()` as dispatched on the node: a tab bar runs its override
     * (forgetting its active tab), any other node the base implementation. Every descendant
     * ends with no children, and so does the node.
     */
    method RemoveChildCoordinators(id: Id, ghost fuel: nat)
      requires Valid() && Bounded(nodes, id, fuel)
      modifies this
      decreases fuel, 2
      ensures Valid()
      ensures TearDownEffect(old(nodes), nodes, id, fuel)
      ensures nodes[id] == TornDown(old(nodes)[id])
      ensures stacks == old(stacks) && nextId == old(nextId) && nextStack == old(nextStack) && calls == old(calls)
    {
      if nodes[id].tab.Some? {
        RemoveTabChildCoordinators(id, false, fuel);
      } else {
        BaseRemoveChildCoordinators(id, fuel);
      }
    }

    /**
     * `removeChildCoordinators(keepCurrent:)` of a tab bar: empties the tab cache, forgets the
     * active tab unless `keepCurrent`, then runs the base teardown.
     */
    method RemoveTabChildCoordinators(id: Id, keepCurrent: bool, ghost fuel: nat)
      requires Valid() && Bounded(nodes, id, fuel) && nodes[id].tab.Some?
      modifies this
      decreases fuel, 1
      ensures Valid()
      ensures TearDownEffect(old(nodes), nodes, id, fuel)
      ensures var ts := old(nodes)[id].tab.value;
              nodes[id] == old(nodes)[id].(children := [],
                tab := Some(ts.(activeIndex := if keepCurrent then ts.activeIndex else None, cache := map[])))
      ensures stacks == old(stacks) && nextId == old(nextId) && nextStack == old(nextStack) && calls == old(calls)
    {
      ghost var before := nodes;
      var ts := nodes[id].tab.value;
      if !keepCurrent {
        ts := ts.(activeIndex := None);
      }
      ts := ts.(cache := map[]);
      nodes := nodes[id := nodes[id].(tab := Some(ts))];
      assert EdgeSubset(before, nodes);
      BoundedEdgeSubset(before, nodes, id, fuel);
      BaseRemoveChildCoordinators(id, fuel);
      TearDownAfterTabChange(before, before[id := before[id].(tab := Some(ts))], nodes, id, fuel, Some(ts));
    }

    /**
     * `BaseCoordinator.removeChildCoordinators()`: each former child runs its own
     * `removeChildCoordinators()`, then the child set is emptied.
     */
    method BaseRemoveChildCoordinators(id: Id, ghost fuel: nat)
      requires Valid() && Bounded(nodes, id, fuel)
      modifies this
      decreases fuel, 0
      ensures Valid()
      ensures TearDownEffect(old(nodes), nodes, id, fuel)
      ensures nodes[id] == old(nodes)[id].(children := [])
      ensures stacks == old(stacks) && nextId == old(nextId) && nextStack == old(nextStack) && calls == old(calls)
    {
      ghost var before := nodes;
      var children := nodes[id].children;
      LoopFactsInit(before, id, fuel);
      var i := 0;
      while i < |children|
        invariant 0 <= i <= |children| && children == before[id].children
        invariant Valid() && LoopFacts(before, nodes, id, fuel, i)
        invariant stacks == old(stacks) && nextId == old(nextId) && nextStack == old(nextStack) && calls == old(calls)
      {
        ghost var mid := nodes;
        LoopChildBounded(before, nodes, id, fuel, i);
        RemoveChildCoordinators(children[i], fuel - 1);
        TearDownStep(before, mid, nodes, id, fuel, i);
        i := i + 1;
      }
      LoopFactsDone(before, nodes, id, fuel);
      nodes := nodes[id := nodes[id].(children := [])];
    }
  }
}
