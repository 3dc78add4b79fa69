/**
  The depth-first search with which packages/_lib/verify-ci-package-needs.py refuses a
  cyclic package graph.

  `visited` and `active` are the two sets the search mutates; `order` and `stack` are ghost
  and record in which order packages entered them.
 */
module CiCycle {
  import opened Common

  type Relationships = map<Package, set<Package>>

  /** Every dependency is itself a package of the graph. */
  ghost predicate Closed(g: Relationships) {
    forall p :: p in g ==> g[p] <= g.Keys
  }

  /**
    The dependencies between the repository's own packages: of the names a project lists,
    those that are other projects.
   */
  function InternalRelationships(listed: map<Package, seq<Package>>): (g: Relationships)
    ensures Closed(g) && g.Keys == listed.Keys
    ensures forall p, d :: p in g ==> (d in g[p] <==> d in listed[p] && d in listed && d != p)
  {
    map p | p in listed :: set d | d in listed[p] && d in listed && d != p
  }

  predicate IsWalk(g: Relationships, w: seq<Package>) {
    w != [] && w[0] in g && (|w| == 1 || (IsWalk(g, Init(w)) && Last(Init(w)) in g && Last(w) in g[Last(Init(w))]))
  }

  predicate IsCycle(g: Relationships, c: seq<Package>) {
    IsWalk(g, c) && |c| > 1 && c[0] == Last(c)
  }

  ghost predicate HasCycle(g: Relationships) {
    exists c :: IsCycle(g, c)
  }

  /** Each package comes after everything it depends on. */
  ghost predicate DependenciesFirst(g: Relationships, order: seq<Package>) {
    forall i :: 0 <= i < |order| ==> order[i] in g && g[order[i]] <= Elements(order[..i])
  }

  ghost predicate IsTopologicalOrder(g: Relationships, order: seq<Package>) {
    Distinct(order) && Elements(order) == g.Keys && DependenciesFirst(g, order)
  }

  // ----------------------------------------------------------------- walks

  lemma {:induction false} SuffixOfWalk(g: Relationships, w: seq<Package>, i: nat)
    requires IsWalk(g, w) && Closed(g) && i < |w|
    ensures IsWalk(g, w[i..])
  {
    if i + 1 < |w| {
      SuffixOfWalk(g, Init(w), i);
      assert Init(w[i..]) == Init(w)[i..];
    } else {
      assert w[i..] == [Last(w)];
    }
  }

  /** Along a walk, positions in a topological order only go down. */
  lemma {:induction false} WalkDescends(g: Relationships, order: seq<Package>, w: seq<Package>, i: nat) returns (j: nat)
    requires DependenciesFirst(g, order) && IsWalk(g, w) && i < |order| && order[i] == w[0]
    ensures j <= i && order[j] == Last(w) && (|w| > 1 ==> j < i)
    decreases |w|
  {
    if |w| == 1 {
      j := i;
    } else {
      var k := WalkDescends(g, order, Init(w), i);
      assert Last(w) in order[..k];
      j :| 0 <= j < k && order[j] == Last(w);
    }
  }

  lemma TopologicalMeansAcyclic(g: Relationships, order: seq<Package>)
    requires IsTopologicalOrder(g, order)
    ensures !HasCycle(g)
  {
    forall c | IsCycle(g, c)
      ensures false
    {
      assert c[0] in Elements(order);
      var i :| 0 <= i < |order| && order[i] == c[0];
      var j := WalkDescends(g, order, c, i);
    }
  }

  // ---------------------------------------------------------------- search

  /** `active` is the recursion stack, a walk of the graph. */
  ghost predicate StackState(g: Relationships, active: set<Package>, stack: seq<Package>) {
    && Distinct(stack) && Elements(stack) == active
    && (stack == [] || IsWalk(g, stack))
  }

  /** `visited` lists the finished packages, dependencies first. */
  ghost predicate OrderState(g: Relationships, visited: set<Package>, order: seq<Package>) {
    Distinct(order) && Elements(order) == visited && DependenciesFirst(g, order)
  }

  ghost predicate SearchState(g: Relationships, visited: set<Package>, active: set<Package>,
                              order: seq<Package>, stack: seq<Package>)
  {
    && Closed(g) && StackState(g, active, stack) && OrderState(g, visited, order)
    && active !! visited && active + visited <= g.Keys
  }

  /** Meeting an active package again closes a cycle. */
  lemma ActiveClosesCycle(g: Relationships, stack: seq<Package>, package: Package) returns (cycle: seq<Package>)
    requires Closed(g) && IsWalk(g, stack) && package in stack && Last(stack) in g && package in g[Last(stack)]
    ensures IsCycle(g, cycle)
  {
    var i :| 0 <= i < |stack| && stack[i] == package;
    SuffixOfWalk(g, stack, i);
    cycle := stack[i..] + [package];
    assert Init(cycle) == stack[i..];
  }

  lemma Push(g: Relationships, active: set<Package>, stack: seq<Package>, package: Package)
    requires StackState(g, active, stack) && active <= g.Keys
    requires package in g && package !in active
    requires stack == [] || package in g[Last(stack)]
    ensures StackState(g, active + {package}, stack + [package])
  {
    assert Init(stack + [package]) == stack;
    ElementsAppend(stack, [package]);
  }

  lemma Pop(g: Relationships, active: set<Package>, stack: seq<Package>, package: Package)
    requires StackState(g, active, stack) && stack != [] && Last(stack) == package
    ensures StackState(g, active - {package}, Init(stack))
  {
    assert stack == Init(stack) + [package];
    ElementsAppend(Init(stack), [package]);
  }

  lemma Finish(g: Relationships, visited: set<Package>, order: seq<Package>, package: Package)
    requires OrderState(g, visited, order)
    requires package in g && package !in visited && g[package] <= visited
    ensures OrderState(g, visited + {package}, order + [package])
  {
    var order' := order + [package];
    ElementsAppend(order, [package]);
    assert order'[..|order|] == order;
    assert forall i :: 0 <= i < |order| ==> order'[..i] == order[..i];
  }

  class CycleCheck {
    const relationships: Relationships
    var visited: set<Package>
    var active: set<Package>
    ghost var order: seq<Package>
    ghost var stack: seq<Package>

    ghost predicate Valid()
      reads this
    {
      SearchState(relationships, visited, active, order, stack)
    }

    constructor (g: Relationships)
      requires Closed(g)
      ensures Valid() && relationships == g && order == [] && stack == []
    {
      relationships := g;
      visited, active := {}, {};
      order, stack := [], [];
    }

    /**
      Visits one package.  Raising exhibits a cycle; returning adds the package and all it
      depends on to `visited` and restores `active`.
     */
    method Visit(package: Package) returns (raised: bool, ghost cycle: seq<Package>)
      requires Valid() && package in relationships
      requires stack == [] || package in relationships[Last(stack)]
      modifies this
      ensures raised ==> IsCycle(relationships, cycle)
      ensures !raised ==> Valid() && package in visited && stack == old(stack) && old(order) <= order
      decreases relationships.Keys - active
    {
      cycle := [];
      if package in active {
        cycle := ActiveClosesCycle(relationships, stack, package);
        return true, cycle;
      }
      if package in visited {
        return false, cycle;
      }
      Push(relationships, active, stack, package);
      active := active + {package};
      stack := stack + [package];
      var todo := relationships[package];
      while todo != {}
        invariant Valid() && stack == old(stack) + [package] && old(order) <= order
        invariant todo <= relationships[package] <= todo + visited
        decreases todo
      {
        var dependency :| dependency in todo;
        todo := todo - {dependency};
        raised, cycle := Visit(dependency);
        if raised {
          return;
        }
      }
      Pop(relationships, active, stack, package);
      Finish(relationships, visited, order, package);
      active := active - {package};
      visited := visited + {package};
      stack := Init(stack);
      order := order + [package];
      raised := false;
    }
  }

  /**
    The search over all packages raises exactly when the graph has a cycle; otherwise the
    order in which packages were finished is a topological order of the whole graph.
   */
  method VerifyAcyclic(g: Relationships) returns (raised: bool, ghost order: seq<Package>)
    requires Closed(g)
    ensures raised <==> HasCycle(g)
    ensures !raised ==> IsTopologicalOrder(g, order)
  {
    var check := new CycleCheck(g);
    order := [];
    var todo := g.Keys;
    while todo != {}
      invariant fresh(check) && check.Valid() && check.relationships == g && check.stack == []
      invariant g.Keys <= todo + check.visited
      decreases todo
    {
      var package :| package in todo;
      todo := todo - {package};
      ghost var cycle;
      raised, cycle := check.Visit(package);
      if raised {
        return;
      }
    }
    order := check.order;
    TopologicalMeansAcyclic(g, order);
    raised := false;
  }
}
