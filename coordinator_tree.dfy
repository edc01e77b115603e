/**
 * The coordinator tree as a value: an arena of nodes keyed by identity, each with its parent
 * link, its ordered child set, its stored transition, its own navigation controller (if one
 * was set or created) and, for a tab-bar coordinator, its tab state. The walks over parent
 * and child links are defined with a fuel bound; a walk that needs more steps than its fuel
 * (a cycle, or a chain longer than the bound) has no result.
 */
module CoordinatorTree {
  import opened Wrappers
  import opened Transitions
  import opened Seqs

  /** A coordinator, by identity. */
  type Id = nat

  /** The private fields of a tab-bar coordinator. */
  datatype TabState = TabState(activeIndex: Option<int>, shouldReset: bool, cache: map<int, seq<Screen>>)

  datatype Node = Node(
    parent: Option<Id>,
    children: seq<Id>,               // the child set, in insertion order, without repeats
    transition: Option<Transition>,  // the stored transition; None until first read or set
    nav: Option<StackId>,            // the node's own navigation controller
    position: Option<int>,           // the stored position index
    tab: Option<TabState>)           // present exactly for a tab-bar coordinator

  type Tree = map<Id, Node>

  /** `set.add(x)` on an insertion-ordered set. */
  function Include(s: seq<Id>, x: Id): (r: seq<Id>)
    ensures x in r && forall y :: y in s ==> y in r
    ensures forall y :: y in r ==> y in s || y == x
  {
    if x in s then s else s + [x]
  }

  /** The transition a node reports: the stored one, or the default `Transition()`. */
  function TransitionOf(n: Node): Transition
  {
    n.transition.GetOr(DefaultTransition())
  }

  /**
   * The tree after `start(coordinator:transition:)`: the child joins the parent's child set,
   * stores the transition and points back at the parent; nothing else changes.
   */
  function StartedTree(nodes: Tree, id: Id, child: Id, t: Transition): (r: Tree)
    requires id in nodes && child in nodes
    ensures r.Keys == nodes.Keys
    ensures child in r[id].children && r[child].transition == Some(t) && r[child].parent == Some(id)
    ensures id != child ==> r[id] == nodes[id].(children := Include(nodes[id].children, child))
    ensures r[child].nav == nodes[child].nav && r[child].tab == nodes[child].tab
            && r[child].position == nodes[child].position
    ensures forall x :: x in nodes && x != id && x != child ==> r[x] == nodes[x]
  {
    var joined := nodes[id := nodes[id].(children := Include(nodes[id].children, child))];
    joined[child := joined[child].(transition := Some(t), parent := Some(id))]
  }

  // ---------------------------------------------------------------- parent walks

  /**
   * The nodes met by following parent links from `id` up to a node without a parent, or None
   * when that takes more than `fuel` steps or leaves the arena.
   */
  function Lineage(nodes: Tree, id: Id, fuel: nat): (r: Option<seq<Id>>)
    decreases fuel
    ensures r.Some? ==> |r.value| > 0 && r.value[0] == id
    ensures r.Some? ==> forall i :: 0 <= i < |r.value| ==> r.value[i] in nodes
    ensures r.Some? ==> forall i :: 0 <= i < |r.value| - 1 ==> nodes[r.value[i]].parent == Some(r.value[i + 1])
    ensures r.Some? ==> nodes[Last(r.value)].parent.None?
  {
    if id !in nodes then None
    else match nodes[id].parent
      case None => Some([id])
      case Some(p) =>
        if fuel == 0 then None
        else match Lineage(nodes, p, fuel - 1)
          case None => None
          case Some(rest) => Some([id] + rest)
  }

  /** A node that is its own parent has no root: the walk up never ends. */
  lemma {:induction false} SelfParentHasNoLineage(nodes: Tree, id: Id, fuel: nat)
    requires id in nodes && nodes[id].parent == Some(id)
    ensures Lineage(nodes, id, fuel) == None
  {
    if fuel > 0 {
      SelfParentHasNoLineage(nodes, id, fuel - 1);
    }
  }

  /** Which navigation controller a node's `navigationController` getter returns. */
  datatype Handle =
    | Own(stack: StackId)     // an own or inherited controller
    | CreateAt(root: Id)      // none on the way up: a new one is created and stored on this parentless node
    | Unresolved              // the walk did not end within its fuel

  function Resolve(nodes: Tree, id: Id, fuel: nat): (h: Handle)
    decreases fuel
    ensures h.CreateAt? ==> h.root in nodes && nodes[h.root].parent.None? && nodes[h.root].nav.None?
  {
    if id !in nodes then Unresolved
    else match nodes[id].nav
      case Some(s) => Own(s)
      case None =>
        match nodes[id].parent
        case None => CreateAt(id)
        case Some(p) => if fuel == 0 then Unresolved else Resolve(nodes, p, fuel - 1)
  }

  /** A node resolves only to a controller some node on its way up has as its own. */
  lemma {:induction false} ResolvedIsOwned(nodes: Tree, id: Id, fuel: nat) returns (owner: Id)
    requires Resolve(nodes, id, fuel).Own?
    ensures owner in nodes && nodes[owner].nav == Some(Resolve(nodes, id, fuel).stack)
    decreases fuel
  {
    if nodes[id].nav.Some? {
      owner := id;
    } else {
      owner := ResolvedIsOwned(nodes, nodes[id].parent.value, fuel - 1);
    }
  }

  /** The controller a handle stands for, given the identity the next created controller gets. */
  function ResolvedStack(h: Handle, next: StackId): StackId
  {
    if h.Own? then h.stack else next
  }

  /** The tree after a resolution: a created controller is stored on the node that created it. */
  function AfterResolve(nodes: Tree, h: Handle, s: StackId): Tree
  {
    if h.CreateAt? && h.root in nodes then nodes[h.root := nodes[h.root].(nav := Some(s))] else nodes
  }

  /** Whenever the parent walk ends, so does the resolution of the navigation controller. */
  lemma {:induction false} LineageResolves(nodes: Tree, id: Id, fuel: nat)
    requires Lineage(nodes, id, fuel).Some?
    ensures Resolve(nodes, id, fuel) != Unresolved
    decreases fuel
  {
    if nodes[id].nav.None? && nodes[id].parent.Some? {
      LineageResolves(nodes, nodes[id].parent.value, fuel - 1);
    }
  }

  /**
   * A second read resolves to the controller the first read created: once it is stored on
   * the parentless node, every node below resolves to it.
   */
  lemma {:induction false} ResolveAfterCreate(nodes: Tree, id: Id, fuel: nat, s: StackId)
    requires Resolve(nodes, id, fuel).CreateAt?
    ensures Resolve(AfterResolve(nodes, Resolve(nodes, id, fuel), s), id, fuel) == Own(s)
    decreases fuel
  {
    var r := Resolve(nodes, id, fuel).root;
    var after := nodes[r := nodes[r].(nav := Some(s))];
    if id != r {
      assert nodes[id].nav.None? && nodes[id].parent.Some?;
      ResolveAfterCreate(nodes, nodes[id].parent.value, fuel - 1, s);
      assert after[id] == nodes[id];
    }
  }

  /** Two trees with the same keys, parents and own controllers. */
  ghost predicate SameLinks(a: Tree, b: Tree)
  {
    a.Keys == b.Keys && forall x :: x in a ==> a[x].parent == b[x].parent && a[x].nav == b[x].nav
  }

  /** Storing a transition, a position or tab state changes neither walk. */
  lemma {:induction false} SameLinksSameWalks(a: Tree, b: Tree, id: Id, fuel: nat)
    requires SameLinks(a, b)
    ensures Resolve(a, id, fuel) == Resolve(b, id, fuel)
    ensures Lineage(a, id, fuel) == Lineage(b, id, fuel)
    decreases fuel
  {
    if id in a && a[id].parent.Some? && fuel > 0 {
      SameLinksSameWalks(a, b, a[id].parent.value, fuel - 1);
    }
  }

  /** The tree once `id` has read its transition: the transition it reports is now stored. */
  function WithTransition(nodes: Tree, id: Id): Tree
    requires id in nodes
  {
    nodes[id := nodes[id].(transition := Some(TransitionOf(nodes[id])))]
  }

  /**
   * When `show` applies a transition and returns: never for a custom transition (it has no
   * branch for one); for a reset, when the walk to the root ends and the stack can then be
   * resolved (a parentless node without its own controller becomes its own parent and would
   * ask itself for one forever); for push and present, when the stack can be resolved.
   */
  ghost predicate CanShow(nodes: Tree, id: Id, fuel: nat)
  {
    id in nodes
    && match TransitionOf(nodes[id]).kind
       case Custom(_) => false
       case NoTransition => true
       case Reset(_) => Lineage(nodes, id, fuel).Some? && (nodes[id].parent.Some? || nodes[id].nav.Some?)
       case Push => Resolve(nodes, id, fuel) != Unresolved
       case Present(_) => Resolve(nodes, id, fuel) != Unresolved
  }

  /** The tree after `reset` re-points the parent of `id` at its root, before the stack is read. */
  function Reparented(nodes: Tree, id: Id, fuel: nat): (r: Tree)
    requires id in nodes && Lineage(nodes, id, fuel).Some?
    ensures r.Keys == nodes.Keys && r[id].parent == Some(Last(Lineage(nodes, id, fuel).value))
    ensures nodes[id].parent.None? ==> r[id].parent == Some(id)
    ensures r[id].(parent := nodes[id].parent) == nodes[id]
    ensures forall x :: x in nodes && x != id ==> r[x] == nodes[x]
  {
    nodes[id := nodes[id].(parent := Some(Last(Lineage(nodes, id, fuel).value)))]
  }

  /**
   * After the re-pointing, one step up is enough to find the stack, unless a parentless node
   * without its own controller was made its own parent.
   */
  lemma ReparentedResolves(nodes: Tree, id: Id, fuel: nat)
    requires id in nodes && Lineage(nodes, id, fuel).Some?
    requires nodes[id].parent.Some? || nodes[id].nav.Some?
    ensures Resolve(Reparented(nodes, id, fuel), id, 1) != Unresolved
  {
    var root := Last(Lineage(nodes, id, fuel).value);
    if nodes[id].nav.None? {
      assert nodes[id].parent.Some? && root != id;
    }
  }

  /**
   * As written, a reset on a parentless node without its own controller never finds a
   * stack: the node is made its own parent, and the getter asks that parent, itself, again
   * and again, whatever the bound.
   */
  lemma {:induction false} ParentlessResetNeverResolves(nodes: Tree, id: Id, fuel: nat, k: nat)
    requires id in nodes && nodes[id].parent.None? && nodes[id].nav.None?
    ensures Resolve(Reparented(nodes, id, fuel), id, k) == Unresolved
    decreases k
  {
    if k > 0 {
      ParentlessResetNeverResolves(nodes, id, fuel, k - 1);
    }
  }

  /**
   * The re-pointing as intended: the parent becomes the root, except on the root itself,
   * which keeps no parent.
   */
  function ReparentedIntended(nodes: Tree, id: Id, fuel: nat): (r: Tree)
    requires id in nodes && Lineage(nodes, id, fuel).Some?
    ensures r.Keys == nodes.Keys
    ensures nodes[id].parent.Some? ==> r[id].parent == Some(Last(Lineage(nodes, id, fuel).value))
    ensures nodes[id].parent.None? ==> r[id].parent.None?
    ensures r[id].(parent := nodes[id].parent) == nodes[id]
    ensures forall x :: x in nodes && x != id ==> r[x] == nodes[x]
  {
    var root := Last(Lineage(nodes, id, fuel).value);
    nodes[id := nodes[id].(parent := if root == id then None else Some(root))]
  }

  /**
   * With the intended re-pointing, one step up always finds the stack or the node on
   * which to create one: no node is left out, the parentless one included.
   */
  lemma ReparentedIntendedResolves(nodes: Tree, id: Id, fuel: nat)
    requires id in nodes && Lineage(nodes, id, fuel).Some?
    ensures Resolve(ReparentedIntended(nodes, id, fuel), id, 1) != Unresolved
  {
    var root := Last(Lineage(nodes, id, fuel).value);
    if nodes[id].parent.Some? {
      assert root != id;
    }
  }

  // ---------------------------------------------------------------- child walks

  /** The child links below `id` stay inside the arena and reach no deeper than `fuel` levels. */
  ghost predicate Bounded(nodes: Tree, id: Id, fuel: nat)
    decreases fuel
  {
    id in nodes
    && (nodes[id].children == []
        || (fuel > 0 && forall i :: 0 <= i < |nodes[id].children| ==> Bounded(nodes, nodes[id].children[i], fuel - 1)))
  }

  /** `b` is `a` or lies below it, at most `k` child links down. */
  ghost predicate Reaches(nodes: Tree, a: Id, b: Id, k: nat)
    decreases k
  {
    a == b
    || (k > 0 && a in nodes
        && exists i :: 0 <= i < |nodes[a].children| && Reaches(nodes, nodes[a].children[i], b, k - 1))
  }

  lemma {:induction false} BoundedMonotone(nodes: Tree, a: Id, f: nat)
    requires Bounded(nodes, a, f)
    ensures Bounded(nodes, a, f + 1)
    decreases f
  {
    if nodes[a].children != [] {
      forall i | 0 <= i < |nodes[a].children|
        ensures Bounded(nodes, nodes[a].children[i], f)
      {
        BoundedMonotone(nodes, nodes[a].children[i], f - 1);
      }
    }
  }

  lemma {:induction false} BoundedAlongReach(nodes: Tree, a: Id, b: Id, f: nat, k: nat)
    requires Bounded(nodes, a, f) && Reaches(nodes, a, b, k)
    ensures Bounded(nodes, b, f)
    decreases k
  {
    if a != b {
      var i :| 0 <= i < |nodes[a].children| && Reaches(nodes, nodes[a].children[i], b, k - 1);
      BoundedMonotone(nodes, nodes[a].children[i], f - 1);
      BoundedAlongReach(nodes, nodes[a].children[i], b, f, k - 1);
    }
  }

  /** Below a bounded node no child link leads back to it. */
  lemma {:induction false} NoReturn(nodes: Tree, x: Id, f: nat, i: nat, k: nat)
    requires Bounded(nodes, x, f) && i < |nodes[x].children|
    ensures !Reaches(nodes, nodes[x].children[i], x, k)
    decreases f
  {
    var c := nodes[x].children[i];
    if Reaches(nodes, c, x, k) {
      BoundedAlongReach(nodes, c, x, f - 1, k);
      NoReturn(nodes, x, f - 1, i, k);
    }
  }

  /** `b` has the keys of `a`, and each node keeps its children or has none left. */
  ghost predicate EdgeSubset(a: Tree, b: Tree)
  {
    a.Keys == b.Keys && forall x :: x in b ==> b[x].children == a[x].children || b[x].children == []
  }

  lemma {:induction false} ReachesEdgeSubset(a: Tree, b: Tree, x: Id, y: Id, k: nat)
    requires EdgeSubset(a, b) && Reaches(b, x, y, k)
    ensures Reaches(a, x, y, k)
    decreases k
  {
    if x != y {
      var i :| 0 <= i < |b[x].children| && Reaches(b, b[x].children[i], y, k - 1);
      ReachesEdgeSubset(a, b, b[x].children[i], y, k - 1);
      assert a[x].children[i] == b[x].children[i];
    }
  }

  lemma {:induction false} BoundedEdgeSubset(a: Tree, b: Tree, x: Id, f: nat)
    requires EdgeSubset(a, b) && Bounded(a, x, f)
    ensures Bounded(b, x, f)
    decreases f
  {
    if b[x].children != [] {
      forall i | 0 <= i < |b[x].children|
        ensures Bounded(b, b[x].children[i], f - 1)
      {
        BoundedEdgeSubset(a, b, b[x].children[i], f - 1);
      }
    }
  }

  // ---------------------------------------------------------------- teardown

  function ClearedTab(tab: Option<TabState>): Option<TabState>
  {
    match tab
    case None => None
    case Some(ts) => Some(ts.(activeIndex := None, cache := map[]))
  }

  /** A node after its `removeChildCoordinators()`: no children, and a tab bar forgets its active tab and cache. */
  function TornDown(n: Node): (r: Node)
    ensures r.children == [] && r.parent == n.parent && r.nav == n.nav && r.transition == n.transition
    ensures r.tab.Some? <==> n.tab.Some?
    ensures r.tab.Some? ==> r.tab.value.activeIndex.None? && r.tab.value.cache == map[]
  {
    n.(children := [], tab := ClearedTab(n.tab))
  }

  /** Every former child of `x` has been torn down. */
  ghost predicate ChildrenTornDown(before: Tree, after: Tree, x: Id)
    requires x in before
  {
    forall i :: 0 <= i < |before[x].children| ==>
      before[x].children[i] in before && before[x].children[i] in after
      && after[before[x].children[i]] == TornDown(before[before[x].children[i]])
  }

  /** Every node other than `id` is untouched or torn down. */
  ghost predicate OnlyTornDown(before: Tree, after: Tree, id: Id)
    requires before.Keys == after.Keys
  {
    forall x :: x in before && x != id ==> after[x] == before[x] || after[x] == TornDown(before[x])
  }

  /** Every torn-down node other than `id` had its former children torn down. */
  ghost predicate ClosedBelow(before: Tree, after: Tree, id: Id)
    requires before.Keys == after.Keys
  {
    forall x :: x in before && x != id && after[x] == TornDown(before[x]) ==> ChildrenTornDown(before, after, x)
  }

  /** Only nodes at or below `id` changed. */
  ghost predicate ChangedBelow(before: Tree, after: Tree, id: Id, fuel: nat)
    requires before.Keys == after.Keys
  {
    forall x :: x in before && after[x] != before[x] ==> Reaches(before, id, x, fuel)
  }

  /**
   * What tearing down below `id` does to the tree: no node is added or removed; a node other
   * than `id` is either untouched or torn down, and a torn-down node's former children are
   * torn down too; the former children of `id` are torn down; and only nodes below `id` change.
   */
  ghost predicate TearDownEffect(before: Tree, after: Tree, id: Id, fuel: nat)
  {
    id in before && before.Keys == after.Keys
    && OnlyTornDown(before, after, id)
    && ClosedBelow(before, after, id)
    && ChildrenTornDown(before, after, id)
    && ChangedBelow(before, after, id, fuel)
  }

  /** A tree that only differs by torn-down nodes keeps the same child links, or none. */
  lemma TornDownEdgeSubset(before: Tree, after: Tree, id: Id)
    requires id in before && before.Keys == after.Keys && after[id].children == before[id].children
    requires forall x :: x in before && x != id ==> after[x] == before[x] || after[x] == TornDown(before[x])
    ensures EdgeSubset(before, after)
  {
  }

  /** Teardown reaches all the way down: every node below `id` ends with no children. */
  lemma {:induction false} DescendantsTornDown(before: Tree, after: Tree, id: Id, fuel: nat, x: Id, k: nat)
    requires TearDownEffect(before, after, id, fuel)
    requires Reaches(before, id, x, k) && x != id
    ensures x in before && after[x] == TornDown(before[x]) && after[x].children == []
  {
    TornDownAlongPath(before, after, id, fuel, id, x, k);
  }

  lemma {:induction false} TornDownAlongPath(before: Tree, after: Tree, id: Id, fuel: nat, y: Id, x: Id, k: nat)
    requires TearDownEffect(before, after, id, fuel)
    requires y in before && (y == id || after[y] == TornDown(before[y]))
    requires Reaches(before, y, x, k)
    ensures x in before && (x == id || after[x] == TornDown(before[x]))
    decreases k
  {
    if y != x {
      var i :| 0 <= i < |before[y].children| && Reaches(before, before[y].children[i], x, k - 1);
      assert ChildrenTornDown(before, after, y);
      TornDownAlongPath(before, after, id, fuel, before[y].children[i], x, k - 1);
    }
  }

  /** No node at or below a bounded node has that node as a child. */
  lemma NoChildIsRoot(nodes: Tree, id: Id, fuel: nat, x: Id, m: nat)
    requires Bounded(nodes, id, fuel) && Reaches(nodes, id, x, m)
    ensures x in nodes && forall j :: 0 <= j < |nodes[x].children| ==> nodes[x].children[j] != id
  {
    BoundedAlongReach(nodes, id, x, fuel, m);
    forall j | 0 <= j < |nodes[x].children|
      ensures nodes[x].children[j] != id
    {
      NoReturn(nodes, x, fuel, j, m);
    }
  }

  /** The first `i` former children of `id` are torn down. */
  ghost predicate FirstChildrenTornDown(before: Tree, now: Tree, id: Id, i: nat)
    requires id in before && i <= |before[id].children|
  {
    forall j :: 0 <= j < i ==>
      before[id].children[j] in before && before[id].children[j] in now
      && now[before[id].children[j]] == TornDown(before[before[id].children[j]])
  }

  /**
   * The facts the base teardown loop keeps after tearing down below the first `i` former
   * children of `id`: `id` itself is untouched, every other node is untouched or torn down,
   * torn-down nodes had their former children torn down, the first `i` children are torn
   * down, and only nodes below `id` changed.
   */
  ghost predicate LoopFacts(before: Tree, now: Tree, id: Id, fuel: nat, i: nat)
  {
    id in before && i <= |before[id].children| && before.Keys == now.Keys && now[id] == before[id]
    && OnlyTornDown(before, now, id)
    && ClosedBelow(before, now, id)
    && FirstChildrenTornDown(before, now, id, i)
    && ChangedBelow(before, now, id, fuel)
  }

  lemma LoopFactsInit(before: Tree, id: Id, fuel: nat)
    requires id in before
    ensures LoopFacts(before, before, id, fuel, 0)
  {
  }

  /** The `i`-th former child of `id` is still bounded in the current tree. */
  lemma LoopChildBounded(before: Tree, now: Tree, id: Id, fuel: nat, i: nat)
    requires Bounded(before, id, fuel) && LoopFacts(before, now, id, fuel, i) && i < |before[id].children|
    ensures fuel > 0 && Bounded(now, before[id].children[i], fuel - 1)
  {
    TornDownEdgeSubset(before, now, id);
    BoundedEdgeSubset(before, now, before[id].children[i], fuel - 1);
  }

  /** What tearing down below the `i`-th former child changes lies below `id`, and `id` is not among it. */
  lemma StepChangedBelow(before: Tree, mid: Tree, after: Tree, id: Id, fuel: nat, i: nat)
    requires Bounded(before, id, fuel) && i < |before[id].children| && fuel > 0
    requires EdgeSubset(before, mid) && mid.Keys == after.Keys
    requires ChangedBelow(mid, after, before[id].children[i], fuel - 1)
    ensures after[id] == mid[id]
    ensures forall x :: x in before && after[x] != mid[x] ==> Reaches(before, id, x, fuel)
  {
    var k := before[id].children[i];
    forall x | x in before && after[x] != mid[x]
      ensures Reaches(before, id, x, fuel)
    {
      ReachesEdgeSubset(before, mid, k, x, fuel - 1);
      assert Reaches(before, before[id].children[i], x, fuel - 1);
    }
    if after[id] != mid[id] {
      ReachesEdgeSubset(before, mid, k, id, fuel - 1);
      NoReturn(before, id, fuel, i, fuel - 1);
    }
  }

  lemma StepOnlyTornDown(before: Tree, mid: Tree, after: Tree, id: Id, k: Id)
    requires before.Keys == mid.Keys == after.Keys && k in before && id in before
    requires OnlyTornDown(before, mid, id) && OnlyTornDown(mid, after, k)
    requires after[k] == TornDown(mid[k]) && after[id] == mid[id]
    ensures OnlyTornDown(before, after, id)
  {
  }

  lemma StepClosedBelow(before: Tree, mid: Tree, after: Tree, id: Id, fuel: nat, k: Id)
    requires before.Keys == mid.Keys == after.Keys && k in before && k != id
    requires Bounded(before, id, fuel)
    requires OnlyTornDown(before, mid, id) && OnlyTornDown(mid, after, k) && after[k] == TornDown(mid[k])
    requires ClosedBelow(before, mid, id) && ClosedBelow(mid, after, k) && ChildrenTornDown(mid, after, k)
    requires ChangedBelow(before, after, id, fuel) && after[id] == before[id]
    ensures ClosedBelow(before, after, id)
  {
    forall x | x in before && x != id && after[x] == TornDown(before[x])
      ensures ChildrenTornDown(before, after, x)
    {
      if before[x].children != [] {
        assert after[x] != before[x];
        NoChildIsRoot(before, id, fuel, x, fuel);
        StepClosedBelowAt(before, mid, after, id, k, x);
      }
    }
  }

  /** One node of `StepClosedBelow`, where none of its former children is `id`. */
  lemma StepClosedBelowAt(before: Tree, mid: Tree, after: Tree, id: Id, k: Id, x: Id)
    requires before.Keys == mid.Keys == after.Keys && k in before && k != id
    requires x in before && x != id && after[x] == TornDown(before[x])
    requires forall j :: 0 <= j < |before[x].children| ==> before[x].children[j] != id
    requires OnlyTornDown(before, mid, id) && OnlyTornDown(mid, after, k) && after[k] == TornDown(mid[k])
    requires ClosedBelow(before, mid, id) && ClosedBelow(mid, after, k) && ChildrenTornDown(mid, after, k)
    ensures ChildrenTornDown(before, after, x)
  {
    if mid[x] == TornDown(before[x]) {
      assert ChildrenTornDown(before, mid, x);
      forall j | 0 <= j < |before[x].children|
        ensures after[before[x].children[j]] == TornDown(before[before[x].children[j]])
      {
        var c := before[x].children[j];
        assert mid[c] == TornDown(before[c]);
        assert after[c] == mid[c] || after[c] == TornDown(mid[c]);
      }
    } else {
      assert mid[x] == before[x];
      assert ChildrenTornDown(mid, after, x);
      forall j | 0 <= j < |before[x].children|
        ensures after[before[x].children[j]] == TornDown(before[before[x].children[j]])
      {
        var c := before[x].children[j];
        assert after[c] == TornDown(mid[c]);
        assert mid[c] == before[c] || mid[c] == TornDown(before[c]);
      }
    }
  }

  lemma StepFirstChildren(before: Tree, mid: Tree, after: Tree, id: Id, fuel: nat, i: nat)
    requires Bounded(before, id, fuel) && i < |before[id].children| && before[id].children[i] in before
    requires before.Keys == mid.Keys == after.Keys
    requires OnlyTornDown(before, mid, id) && OnlyTornDown(mid, after, before[id].children[i])
    requires FirstChildrenTornDown(before, mid, id, i)
    requires after[before[id].children[i]] == TornDown(mid[before[id].children[i]])
    ensures FirstChildrenTornDown(before, after, id, i + 1)
  {
    forall j | 0 <= j < i + 1
      ensures before[id].children[j] in before
      ensures after[before[id].children[j]] == TornDown(before[before[id].children[j]])
    {
      NoReturn(before, id, fuel, j, 0);
    }
  }

  /** Tearing down below the `i`-th former child keeps the loop facts for `i + 1`. */
  lemma TearDownStep(before: Tree, mid: Tree, after: Tree, id: Id, fuel: nat, i: nat)
    requires Bounded(before, id, fuel) && i < |before[id].children|
    requires LoopFacts(before, mid, id, fuel, i)
    requires TearDownEffect(mid, after, before[id].children[i], fuel - 1)
    requires after[before[id].children[i]] == TornDown(mid[before[id].children[i]])
    ensures LoopFacts(before, after, id, fuel, i + 1)
  {
    var k := before[id].children[i];
    TornDownEdgeSubset(before, mid, id);
    NoReturn(before, id, fuel, i, 0);
    StepChangedBelow(before, mid, after, id, fuel, i);
    assert ChangedBelow(before, after, id, fuel);
    StepOnlyTornDown(before, mid, after, id, k);
    StepClosedBelow(before, mid, after, id, fuel, k);
    StepFirstChildren(before, mid, after, id, fuel, i);
  }

  /** After the loop, emptying the own child set completes the teardown below `id`. */
  lemma LoopFactsDone(before: Tree, now: Tree, id: Id, fuel: nat)
    requires id in before && LoopFacts(before, now, id, fuel, |before[id].children|)
    ensures TearDownEffect(before, now[id := now[id].(children := [])], id, fuel)
  {
    var after := now[id := now[id].(children := [])];
    forall x | x in before && x != id && after[x] == TornDown(before[x])
      ensures ChildrenTornDown(before, after, x)
    {
      assert ChildrenTornDown(before, now, x);
    }
  }

  /**
   * Changing only the tab state of `id` before tearing down below it gives the same teardown
   * effect as seen from the original tree.
   */
  lemma TearDownAfterTabChange(before: Tree, mid: Tree, after: Tree, id: Id, fuel: nat, tab: Option<TabState>)
    requires Bounded(before, id, fuel) && mid == before[id := before[id].(tab := tab)]
    requires TearDownEffect(mid, after, id, fuel)
    ensures TearDownEffect(before, after, id, fuel)
  {
    TabChangeChangedBelow(before, mid, after, id, fuel, tab);
    TabChangeClosedBelow(before, mid, after, id, fuel, tab);
    TabChangeChildren(before, mid, after, id, fuel, tab);
    TabChangeOnlyTornDown(before, mid, after, id, tab);
  }

  lemma TabChangeOnlyTornDown(before: Tree, mid: Tree, after: Tree, id: Id, tab: Option<TabState>)
    requires id in before && mid == before[id := before[id].(tab := tab)]
    requires mid.Keys == after.Keys && OnlyTornDown(mid, after, id)
    ensures OnlyTornDown(before, after, id)
  {
  }

  lemma TabChangeChildren(before: Tree, mid: Tree, after: Tree, id: Id, fuel: nat, tab: Option<TabState>)
    requires Bounded(before, id, fuel) && mid == before[id := before[id].(tab := tab)]
    requires mid.Keys == after.Keys && ChildrenTornDown(mid, after, id)
    ensures ChildrenTornDown(before, after, id)
  {
    forall j | 0 <= j < |before[id].children|
      ensures after[before[id].children[j]] == TornDown(before[before[id].children[j]])
    {
      NoReturn(before, id, fuel, j, 0);
      var c := before[id].children[j];
      assert c != id && mid[id].children == before[id].children;
      assert mid[c] == before[c];
      assert after[mid[id].children[j]] == TornDown(mid[mid[id].children[j]]);
    }
  }

  lemma TabChangeChangedBelow(before: Tree, mid: Tree, after: Tree, id: Id, fuel: nat, tab: Option<TabState>)
    requires id in before && mid == before[id := before[id].(tab := tab)]
    requires TearDownEffect(mid, after, id, fuel)
    ensures ChangedBelow(before, after, id, fuel)
  {
    assert EdgeSubset(before, mid);
    forall x | x in before && after[x] != before[x]
      ensures Reaches(before, id, x, fuel)
    {
      if x != id {
        ReachesEdgeSubset(before, mid, id, x, fuel);
      }
    }
  }

  lemma TabChangeClosedBelow(before: Tree, mid: Tree, after: Tree, id: Id, fuel: nat, tab: Option<TabState>)
    requires Bounded(before, id, fuel) && mid == before[id := before[id].(tab := tab)]
    requires TearDownEffect(mid, after, id, fuel) && ChangedBelow(before, after, id, fuel)
    ensures ClosedBelow(before, after, id)
  {
    forall x | x in before && x != id && after[x] == TornDown(before[x])
      ensures ChildrenTornDown(before, after, x)
    {
      assert ChildrenTornDown(mid, after, x);
      if before[x].children != [] {
        NoChildIsRoot(before, id, fuel, x, fuel);
      }
    }
  }

  /** The last-child walk from `id` reaches `top`. */
  ghost predicate LastChildWalk(nodes: Tree, id: Id, top: Id, fuel: nat)
    decreases fuel
  {
    id in nodes
    && (id == top
        || (nodes[id].children != [] && fuel > 0 && LastChildWalk(nodes, Last(nodes[id].children), top, fuel - 1)))
  }

  /** Repeatedly taking the last child from `id` ends within `fuel` steps, inside the arena. */
  ghost predicate LastChildBounded(nodes: Tree, id: Id, fuel: nat)
    decreases fuel
  {
    id in nodes
    && (nodes[id].children == [] || (fuel > 0 && LastChildBounded(nodes, Last(nodes[id].children), fuel - 1)))
  }
}
