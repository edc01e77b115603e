/**
 * Event bubbling over the coordinator tree. A handler of type `T` is modelled by the set of
 * coordinators that conform to `T` (`listeners`); calling the handler on a coordinator is
 * recorded by appending its identity to the list of invocations. Bubbling reads the arena
 * `Coordinators.nodes` and changes nothing in it.
 */
module Bubbling {
  import opened Wrappers
  import opened Seqs
  import opened CoordinatorTree

  datatype Direction =
    | Inward(halt: bool)   // to the children, depth first
    | Outward              // to the parents; the default

  /** `aCoordinator as? T` succeeds. */
  function In(listeners: set<Id>): Id -> bool
  {
    x => x in listeners
  }

  // ---------------------------------------------------------------- specification

  /**
   * The invocations of the inward walk below `id`: each child in order is offered the
   * handler; with `halt`, a child that takes it ends the scan of its sibling list (its own
   * subtree included); otherwise the walk descends into the child and goes on.
   */
  function InwardFrom(nodes: Tree, id: Id, listeners: set<Id>, halt: bool, fuel: nat): seq<Id>
    decreases fuel, 0
  {
    if id !in nodes || fuel == 0 then [] else Scan(nodes, nodes[id].children, listeners, halt, fuel - 1)
  }

  /** The invocations of the loop of `bubbleFunc` over the sibling list `kids`. */
  function Scan(nodes: Tree, kids: seq<Id>, listeners: set<Id>, halt: bool, fuel: nat): seq<Id>
    decreases fuel, |kids| + 1
  {
    if kids == [] then []
    else if kids[0] in listeners && halt then [kids[0]]
    else (if kids[0] in listeners then [kids[0]] else [])
         + InwardFrom(nodes, kids[0], listeners, halt, fuel)
         + Scan(nodes, kids[1..], listeners, halt, fuel)
  }

  /** The invocations of `bubble(direction:type:handler:)` started on `id`. */
  function Bubbled(nodes: Tree, id: Id, direction: Direction, listeners: set<Id>, fuel: nat): seq<Id>
  {
    match direction
    case Outward => (match Lineage(nodes, id, fuel) case Some(path) => Filter(path, In(listeners)) case None => [])
    case Inward(halt) => InwardFrom(nodes, id, listeners, halt, fuel)
  }

  /** The coordinators strictly below `id`, in pre-order. */
  function Below(nodes: Tree, id: Id, fuel: nat): seq<Id>
    decreases fuel, 0
  {
    if id !in nodes || fuel == 0 then [] else BelowAll(nodes, nodes[id].children, fuel - 1)
  }

  /** Each of `kids` followed by the coordinators below it, in order. */
  function BelowAll(nodes: Tree, kids: seq<Id>, fuel: nat): seq<Id>
    decreases fuel, |kids| + 1
  {
    if kids == [] then [] else [kids[0]] + Below(nodes, kids[0], fuel) + BelowAll(nodes, kids[1..], fuel)
  }

  // ---------------------------------------------------------------- the walks

  /**
   * The outward direction: the handler runs on `id` and on every ancestor that conforms,
   * from the leaf to the root, without stopping at the first; `found` tells whether it ran.
   */
  method BubbleOutward(nodes: Tree, id: Id, listeners: set<Id>, ghost fuel: nat) returns (invoked: seq<Id>, found: bool)
    requires Lineage(nodes, id, fuel).Some?
    ensures invoked == Filter(Lineage(nodes, id, fuel).value, In(listeners))
    ensures found <==> invoked != []
  {
    ghost var path := Lineage(nodes, id, fuel).value;
    invoked, found := [], false;
    var coordinator: Option<Id> := Some(id);
    ghost var k := 0;
    while coordinator.Some?
      invariant 0 <= k <= |path|
      invariant coordinator == if k < |path| then Some(path[k]) else None
      invariant invoked == Filter(path[..k], In(listeners))
      invariant found <==> invoked != []
      decreases |path| - k
    {
      var c := coordinator.value;
      FilterSnoc(path, k, listeners);
      LineageStep(nodes, id, fuel, k);
      if c in listeners {
        invoked := invoked + [c];
        found := true;
      }
      coordinator := nodes[c].parent;
      k := k + 1;
    }
    assert path[..k] == path;
  }

  /**
   * `bubbleFunc` on `id`: the loop over its children, with the early return under `halt`.
   * `found` is the flag the walk shares with its caller.
   */
  method BubbleFunc(nodes: Tree, id: Id, listeners: set<Id>, halt: bool, ghost fuel: nat, found0: bool)
    returns (invoked: seq<Id>, found: bool)
    requires Bounded(nodes, id, fuel)
    ensures invoked == InwardFrom(nodes, id, listeners, halt, fuel)
    ensures found <==> found0 || invoked != []
    decreases fuel
  {
    invoked, found := [], found0;
    var kids := nodes[id].children;
    ghost var g: nat := if fuel == 0 then 0 else fuel - 1;
    ghost var whole := Scan(nodes, kids, listeners, halt, g);
    InwardUnfold(nodes, id, listeners, halt, fuel);
    var i := 0;
    while i < |kids|
      invariant 0 <= i <= |kids|
      invariant invoked + Scan(nodes, kids[i..], listeners, halt, g) == whole
      invariant found <==> found0 || invoked != []
    {
      var child := kids[i];
      ghost var before := invoked;
      ghost var head: seq<Id> := if child in listeners then [child] else [];
      ScanAt(nodes, kids, i, listeners, halt, g);
      ChildBounded(nodes, id, fuel, i);
      if child in listeners {
        invoked := invoked + [child];
        found := true;
        if halt {
          return;
        }
      }
      assert invoked == before + head;
      var sub;
      sub, found := BubbleFunc(nodes, child, listeners, halt, g, found);
      invoked := invoked + sub;
      Regroup(before, head, sub, Scan(nodes, kids[i + 1..], listeners, halt, g));
      i := i + 1;
    }
  }

  lemma Regroup(a: seq<Id>, b: seq<Id>, c: seq<Id>, d: seq<Id>)
    ensures (a + b + c) + d == a + (b + c + d)
  {
  }

  /** On a bounded coordinator, the inward walk is the scan of its children with one level less fuel. */
  lemma InwardUnfold(nodes: Tree, id: Id, listeners: set<Id>, halt: bool, fuel: nat)
    requires Bounded(nodes, id, fuel)
    ensures InwardFrom(nodes, id, listeners, halt, fuel)
            == Scan(nodes, nodes[id].children, listeners, halt, if fuel == 0 then 0 else fuel - 1)
  {
  }

  lemma ChildBounded(nodes: Tree, id: Id, fuel: nat, i: nat)
    requires Bounded(nodes, id, fuel) && i < |nodes[id].children|
    ensures fuel > 0 && Bounded(nodes, nodes[id].children[i], fuel - 1)
  {
  }

  /** Filtering one more element of `path` adds it when it is a listener. */
  lemma FilterSnoc(path: seq<Id>, k: nat, listeners: set<Id>)
    requires k < |path|
    ensures Filter(path[..k + 1], In(listeners))
            == Filter(path[..k], In(listeners)) + (if path[k] in listeners then [path[k]] else [])
  {
    assert path[..k + 1] == path[..k] + [path[k]];
    FilterConcat(path[..k], [path[k]], In(listeners));
    FilterSingle(path[k], In(listeners));
  }

  /** The parent of the `k`-th node of a lineage is the next node, or none after the last. */
  lemma LineageStep(nodes: Tree, id: Id, fuel: nat, k: nat)
    requires Lineage(nodes, id, fuel).Some? && k < |Lineage(nodes, id, fuel).value|
    ensures var path := Lineage(nodes, id, fuel).value;
      path[k] in nodes && nodes[path[k]].parent == if k + 1 < |path| then Some(path[k + 1]) else None
  {
  }

  /** One step of the scan at index `i`: a listener under `halt` ends it; any other child is offered and descended into. */
  lemma ScanAt(nodes: Tree, kids: seq<Id>, i: nat, listeners: set<Id>, halt: bool, fuel: nat)
    requires i < |kids|
    ensures kids[i] in listeners && halt ==> Scan(nodes, kids[i..], listeners, halt, fuel) == [kids[i]]
    ensures !(kids[i] in listeners && halt) ==>
      Scan(nodes, kids[i..], listeners, halt, fuel)
      == (if kids[i] in listeners then [kids[i]] else []) + InwardFrom(nodes, kids[i], listeners, halt, fuel)
         + Scan(nodes, kids[i + 1..], listeners, halt, fuel)
  {
    assert kids[i..][0] == kids[i] && kids[i..][1..] == kids[i + 1..];
  }

  /** `bubble(direction:type:handler:)`: the invocations it makes and the value it returns. */
  method Bubble(nodes: Tree, id: Id, direction: Direction := Outward, listeners: set<Id>, ghost fuel: nat)
    returns (invoked: seq<Id>, found: bool)
    requires direction.Outward? ==> Lineage(nodes, id, fuel).Some?
    requires direction.Inward? ==> Bounded(nodes, id, fuel)
    ensures invoked == Bubbled(nodes, id, direction, listeners, fuel)
    ensures found <==> invoked != []
    ensures forall x :: x in invoked ==> x in listeners
  {
    match direction
    case Outward =>
      invoked, found := BubbleOutward(nodes, id, listeners, fuel);
    case Inward(halt) =>
      invoked, found := BubbleFunc(nodes, id, listeners, halt, fuel, false);
      InwardOnlyListeners(nodes, id, listeners, halt, fuel);
  }

  /**
   * `bubble(direction:type:selector:)`: a coordinator takes the call when it conforms to `T`
   * and responds to the selector; otherwise the walk is the one of the handler overload.
   */
  method BubbleSelector(nodes: Tree, id: Id, direction: Direction := Outward, conforming: set<Id>, responding: set<Id>, ghost fuel: nat)
    returns (invoked: seq<Id>, found: bool)
    requires direction.Outward? ==> Lineage(nodes, id, fuel).Some?
    requires direction.Inward? ==> Bounded(nodes, id, fuel)
    ensures invoked == Bubbled(nodes, id, direction, conforming * responding, fuel)
    ensures found <==> invoked != []
    ensures forall x :: x in invoked ==> x in conforming && x in responding
  {
    invoked, found := Bubble(nodes, id, direction, conforming * responding, fuel);
  }

  // ---------------------------------------------------------------- properties

  lemma FilterSingle(x: Id, keep: Id -> bool)
    ensures Filter([x], keep) == if keep(x) then [x] else []
  {
    assert [x][1..] == [];
  }

  /** Only coordinators that conform receive the handler. */
  lemma {:induction false} InwardOnlyListeners(nodes: Tree, id: Id, listeners: set<Id>, halt: bool, fuel: nat)
    ensures forall x :: x in InwardFrom(nodes, id, listeners, halt, fuel) ==> x in listeners
    decreases fuel, 0
  {
    if id in nodes && fuel > 0 {
      ScanOnlyListeners(nodes, nodes[id].children, listeners, halt, fuel - 1);
    }
  }

  lemma {:induction false} ScanOnlyListeners(nodes: Tree, kids: seq<Id>, listeners: set<Id>, halt: bool, fuel: nat)
    ensures forall x :: x in Scan(nodes, kids, listeners, halt, fuel) ==> x in listeners
    decreases fuel, |kids| + 1
  {
    if kids != [] && !(kids[0] in listeners && halt) {
      InwardOnlyListeners(nodes, kids[0], listeners, halt, fuel);
      ScanOnlyListeners(nodes, kids[1..], listeners, halt, fuel);
    }
  }

  /** Without `halt`, every conforming coordinator below `id` receives the handler, in pre-order. */
  lemma {:induction false} InwardWithoutHalt(nodes: Tree, id: Id, listeners: set<Id>, fuel: nat)
    ensures InwardFrom(nodes, id, listeners, false, fuel) == Filter(Below(nodes, id, fuel), In(listeners))
    decreases fuel, 0
  {
    if id in nodes && fuel > 0 {
      ScanWithoutHalt(nodes, nodes[id].children, listeners, fuel - 1);
    }
  }

  lemma {:induction false} ScanWithoutHalt(nodes: Tree, kids: seq<Id>, listeners: set<Id>, fuel: nat)
    ensures Scan(nodes, kids, listeners, false, fuel) == Filter(BelowAll(nodes, kids, fuel), In(listeners))
    decreases fuel, |kids| + 1
  {
    if kids != [] {
      var c := kids[0];
      InwardWithoutHalt(nodes, c, listeners, fuel);
      ScanWithoutHalt(nodes, kids[1..], listeners, fuel);
      FilterSingle(c, In(listeners));
      FilterConcat([c], Below(nodes, c, fuel), In(listeners));
      FilterConcat([c] + Below(nodes, c, fuel), BelowAll(nodes, kids[1..], fuel), In(listeners));
    }
  }

  /**
   * With `halt`, the first conforming child ends the scan of its sibling list: what runs is
   * the walk below the children before it, then the handler on that child, and nothing after.
   */
  lemma {:induction false} HaltAtFirstMatch(nodes: Tree, kids: seq<Id>, listeners: set<Id>, fuel: nat, j: nat)
    requires j < |kids| && kids[j] in listeners
    requires forall i :: 0 <= i < j ==> kids[i] !in listeners
    ensures Scan(nodes, kids, listeners, true, fuel) == Scan(nodes, kids[..j], listeners, true, fuel) + [kids[j]]
    decreases j
  {
    if j > 0 {
      assert kids[..j][0] == kids[0] && kids[..j][1..] == kids[1..][..j - 1];
      HaltAtFirstMatch(nodes, kids[1..], listeners, fuel, j - 1);
    }
  }

  /** Every coordinator the inward walk reaches lies below `id`. */
  lemma {:induction false} InwardIsBelow(nodes: Tree, id: Id, listeners: set<Id>, halt: bool, fuel: nat, x: Id)
    requires x in InwardFrom(nodes, id, listeners, halt, fuel)
    ensures fuel > 0 && id in nodes
    ensures exists i :: 0 <= i < |nodes[id].children| && Reaches(nodes, nodes[id].children[i], x, fuel - 1)
    decreases fuel, 0
  {
    ScanIsBelow(nodes, nodes[id].children, listeners, halt, fuel - 1, x);
  }

  lemma {:induction false} ScanIsBelow(nodes: Tree, kids: seq<Id>, listeners: set<Id>, halt: bool, fuel: nat, x: Id)
    requires x in Scan(nodes, kids, listeners, halt, fuel)
    ensures exists i :: 0 <= i < |kids| && Reaches(nodes, kids[i], x, fuel)
    decreases fuel, |kids| + 1
  {
    var c := kids[0];
    if x == c {
      assert Reaches(nodes, kids[0], x, fuel);
    } else if x in InwardFrom(nodes, c, listeners, halt, fuel) {
      InwardIsBelow(nodes, c, listeners, halt, fuel, x);
      var i :| 0 <= i < |nodes[c].children| && Reaches(nodes, nodes[c].children[i], x, fuel - 1);
      assert Reaches(nodes, kids[0], x, fuel);
    } else {
      ScanIsBelow(nodes, kids[1..], listeners, halt, fuel, x);
      var i :| 0 <= i < |kids[1..]| && Reaches(nodes, kids[1..][i], x, fuel);
      assert Reaches(nodes, kids[i + 1], x, fuel);
    }
  }

  /** The inward walk never offers the handler to the coordinator it starts from. */
  lemma InwardExcludesStart(nodes: Tree, id: Id, listeners: set<Id>, halt: bool, fuel: nat)
    requires Bounded(nodes, id, fuel)
    ensures id !in InwardFrom(nodes, id, listeners, halt, fuel)
  {
    if id in InwardFrom(nodes, id, listeners, halt, fuel) {
      InwardIsBelow(nodes, id, listeners, halt, fuel, id);
      var i :| 0 <= i < |nodes[id].children| && Reaches(nodes, nodes[id].children[i], id, fuel - 1);
      NoReturn(nodes, id, fuel, i, fuel - 1);
    }
  }

  /** The outward walk offers the handler to `id` first, then to each ancestor in turn. */
  lemma OutwardStartsAtSelf(nodes: Tree, id: Id, listeners: set<Id>, fuel: nat)
    requires Lineage(nodes, id, fuel).Some? && id in listeners
    ensures var r := Bubbled(nodes, id, Outward, listeners, fuel); r != [] && r[0] == id
  {
    var path := Lineage(nodes, id, fuel).value;
    assert path == [path[0]] + path[1..];
    FilterConcat([path[0]], path[1..], In(listeners));
    FilterSingle(id, In(listeners));
  }
  /** A three-level tree: 0 has the children 1 and 2, and 1 has the child 3. */
  function SampleTree(): Tree
  {
    map[0 := Node(None, [1, 2], None, None, None, None),
        1 := Node(Some(0), [3], None, None, None, None),
        2 := Node(Some(0), [], None, None, None, None),
        3 := Node(Some(1), [], None, None, None, None)]
  }

  /**
   * `halt` ends only the sibling list the match is in: a match at 3 stops nothing above it,
   * so 2 still receives the handler; a match at 1 keeps the walk out of 1's subtree and away
   * from 2.
   */
  lemma HaltEndsOnlyItsSiblingList()
    ensures InwardFrom(SampleTree(), 0, {2, 3}, true, 2) == [3, 2]
    ensures InwardFrom(SampleTree(), 0, {1, 2, 3}, true, 2) == [1]
    ensures InwardFrom(SampleTree(), 0, {1, 2, 3}, false, 2) == [1, 3, 2]
  {
    var t := SampleTree();
    assert t[0].children == [1, 2] && t[1].children == [3] && t[2].children == [] && t[3].children == [];
    assert [1, 2][1..] == [2] && [2][1..] == [] && [3][1..] == [];
  }
}
