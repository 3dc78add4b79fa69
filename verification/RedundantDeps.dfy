/**
  Redundant direct dependencies between packages (packages/_lib/check-redundant-deps.py).

  `BestPath` enumerates simple paths breadth-first and keeps the first one whose weakest
  edge is strongest.  The specification speaks of all walks, simple or not: the loop must
  therefore be shown to lose nothing by never revisiting a package.
 */
module RedundantDeps {

  import opened Common

  /** 1 = Suggest, 2 = Recommend, 3 = Dependency. */
  type Level = n: int | 1 <= n <= 3 witness 1

  type Graph = map<Package, map<Package, Level>>

  /** The strength a path starts from, above every level. */
  const UNBOUNDED: int := 4

  // ------------------------------------------------------------------ walks

  predicate HasEdge(g: Graph, exclude: (Package, Package), a: Package, b: Package) {
    a in g && b in g[a] && (a, b) != exclude
  }

  /** A non-empty list of packages, each joined to the next by an edge other than `exclude`. */
  predicate IsWalk(g: Graph, exclude: (Package, Package), w: seq<Package>) {
    w != [] && (|w| == 1 || (IsWalk(g, exclude, Init(w)) && HasEdge(g, exclude, Last(Init(w)), Last(w))))
  }

  /** The level of the weakest edge of a walk. */
  function Bottleneck(g: Graph, exclude: (Package, Package), w: seq<Package>): (r: int)
    requires IsWalk(g, exclude, w)
    ensures 1 <= r <= UNBOUNDED
  {
    if |w| == 1 then UNBOUNDED
    else Min(Bottleneck(g, exclude, Init(w)), g[Last(Init(w))][Last(w)])
  }

  predicate Connects(g: Graph, exclude: (Package, Package), start: Package, target: Package, w: seq<Package>) {
    IsWalk(g, exclude, w) && w[0] == start && Last(w) == target
  }

  /** The rule of the tool, edge by edge: every edge of the walk has at least this level. */
  predicate EveryEdgeAtLeast(g: Graph, w: seq<Package>, level: Level) {
    forall i :: 0 <= i < |w| - 1 ==> EdgeAtLeast(g, w, i, level)
  }

  predicate EdgeAtLeast(g: Graph, w: seq<Package>, i: int, level: Level)
    requires 0 <= i < |w| - 1
  {
    w[i] in g && w[i + 1] in g[w[i]] && level <= g[w[i]][w[i + 1]]
  }

  /** What the tool means by a redundant declaration of `dep` by `pkg`. */
  ghost predicate Redundant(g: Graph, pkg: Package, dep: Package)
    requires pkg in g && dep in g[pkg]
  {
    exists w :: Connects(g, (pkg, dep), pkg, dep, w) && EveryEdgeAtLeast(g, w, g[pkg][dep])
  }

  // -------------------------------------------------------- facts about walks

  lemma {:induction false} BottleneckIsEveryEdge(g: Graph, exclude: (Package, Package), w: seq<Package>, level: Level)
    requires IsWalk(g, exclude, w)
    ensures level <= Bottleneck(g, exclude, w) <==> EveryEdgeAtLeast(g, w, level)
  {
    if |w| > 1 {
      var v := Init(w);
      BottleneckIsEveryEdge(g, exclude, v, level);
      assert forall i :: 0 <= i < |v| - 1 ==> EdgeAtLeast(g, v, i, level) == EdgeAtLeast(g, w, i, level);
      assert EdgeAtLeast(g, w, |w| - 2, level) <==> level <= g[Last(v)][Last(w)];
    }
  }

  /** A prefix of a walk is a walk, and no weaker. */
  lemma {:induction false} PrefixOfWalk(g: Graph, exclude: (Package, Package), w: seq<Package>, n: nat)
    requires IsWalk(g, exclude, w) && 1 <= n <= |w|
    ensures IsWalk(g, exclude, w[..n])
    ensures Bottleneck(g, exclude, w) <= Bottleneck(g, exclude, w[..n])
  {
    if n < |w| {
      PrefixOfWalk(g, exclude, Init(w), n);
      assert Init(w)[..n] == w[..n];
    } else {
      assert w[..n] == w;
    }
  }

  /** Cutting out every loop of a walk gives a simple walk that is no longer and no weaker. */
  lemma {:induction false} CutLoops(g: Graph, exclude: (Package, Package), w: seq<Package>) returns (s: seq<Package>)
    requires IsWalk(g, exclude, w)
    ensures IsWalk(g, exclude, s) && Distinct(s) && s[0] == w[0] && Last(s) == Last(w)
    ensures |s| <= |w| && Bottleneck(g, exclude, w) <= Bottleneck(g, exclude, s)
    decreases |w|
  {
    if |w| == 1 {
      s := w;
    } else {
      var v := CutLoops(g, exclude, Init(w));
      var x := Last(w);
      if x in v {
        var i :| 0 <= i < |v| && v[i] == x;
        PrefixOfWalk(g, exclude, v, i + 1);
        s := v[..i + 1];
      } else {
        s := v + [x];
        assert Init(s) == v;
      }
    }
  }

  // ----------------------------------------------------------------- search

  /** One entry of the queue: a path and the level of its weakest edge. */
  datatype Item = Item(path: seq<Package>, strength: int)

  predicate ValidItem(g: Graph, exclude: (Package, Package), start: Package, it: Item) {
    && IsWalk(g, exclude, it.path) && Distinct(it.path) && it.path[0] == start
    && it.strength == Bottleneck(g, exclude, it.path)
  }

  predicate ValidQueue(g: Graph, exclude: (Package, Package), start: Package, q: seq<Item>) {
    && (forall i :: 0 <= i < |q| ==> ValidItem(g, exclude, start, q[i]))
    && (forall i, j :: 0 <= i < j < |q| ==> |q[i].path| <= |q[j].path| <= |q[0].path| + 1)
  }

  /** `best` is either nothing yet, or a simple path of the recorded strength. */
  predicate ValidBest(g: Graph, exclude: (Package, Package), start: Package, target: Package, strength: int,
                      best: seq<Package>) {
    if strength == 0 then best == []
    else Connects(g, exclude, start, target, best) && Distinct(best) && Bottleneck(g, exclude, best) == strength
  }

  /** `best` is at least as strong as `p`, and no longer if they are equally strong. */
  predicate Beats(g: Graph, exclude: (Package, Package), strength: int, best: seq<Package>, p: seq<Package>)
    requires IsWalk(g, exclude, p)
  {
    var s := Bottleneck(g, exclude, p);
    s < strength || (s == strength && |best| <= |p|)
  }

  predicate HasPrefixIn(q: seq<Item>, p: seq<Package>) {
    exists i :: 0 <= i < |q| && q[i].path <= p
  }

  /** Every simple path to the target is beaten already or will still be reached from the queue. */
  ghost predicate NothingLost(g: Graph, exclude: (Package, Package), start: Package, target: Package,
                              q: seq<Item>, strength: int, best: seq<Package>)
  {
    forall p :: Connects(g, exclude, start, target, p) && Distinct(p) ==>
      Beats(g, exclude, strength, best, p) || HasPrefixIn(q, p)
  }

  /** A hop that prolongs a path without revisiting a package. */
  predicate Prolongs(g: Graph, exclude: (Package, Package), path: seq<Package>, n: Package)
    requires path != []
  {
    n !in path && HasEdge(g, exclude, Last(path), n)
  }

  function Child(g: Graph, it: Item, n: Package): Item
    requires it.path != [] && Last(it.path) in g && n in g[Last(it.path)]
  {
    Item(it.path + [n], Min(it.strength, g[Last(it.path)][n]))
  }

  /** `children` are the prolongations of `it`, one for each of the possible hops. */
  ghost predicate AreExtensions(g: Graph, exclude: (Package, Package), it: Item, hops: seq<Package>,
                                children: seq<Item>)
    requires it.path != []
  {
    && (forall n :: n in hops <==> Prolongs(g, exclude, it.path, n))
    && |children| == |hops|
    && (forall i :: 0 <= i < |hops| ==> Prolongs(g, exclude, it.path, hops[i]) && children[i] == Child(g, it, hops[i]))
  }

  // ------------------------------------------------- the termination measure

  /** A finite set of packages that no walk from `start` leaves. */
  ghost predicate Universe(g: Graph, start: Package, u: set<Package>) {
    start in u && forall a, b :: a in g && b in g[a] ==> b in u
  }

  /** An upper bound on the number of simple extensions of a path that leaves `k` packages unvisited. */
  ghost function Weight(k: nat): (r: nat)
    ensures r >= 1
  {
    if k == 0 then 1 else 1 + k * Weight(k - 1)
  }

  /** How many of `n` packages a simple path of this length has not visited. */
  ghost function Remaining(n: nat, length: nat): nat {
    if length <= n then n - length else 0
  }

  ghost function QueueWeight(n: nat, q: seq<Item>): nat {
    if q == [] then 0 else Weight(Remaining(n, |q[0].path|)) + QueueWeight(n, q[1..])
  }

  lemma {:induction false} QueueWeightAppend(n: nat, a: seq<Item>, b: seq<Item>)
    ensures QueueWeight(n, a + b) == QueueWeight(n, a) + QueueWeight(n, b)
  {
    if a == [] {
      assert a + b == b;
    } else {
      assert (a + b)[1..] == a[1..] + b;
      QueueWeightAppend(n, a[1..], b);
    }
  }

  lemma {:induction false} QueueWeightUniform(n: nat, q: seq<Item>, length: nat, weight: nat)
    requires forall i :: 0 <= i < |q| ==> |q[i].path| == length
    requires weight == Weight(Remaining(n, length))
    ensures QueueWeight(n, q) == |q| * weight
  {
    if q != [] {
      QueueWeightUniform(n, q[1..], length, weight);
      assert |q| * weight == weight + |q[1..]| * weight;
    }
  }

  lemma {:induction false} WalkStaysInside(g: Graph, exclude: (Package, Package), w: seq<Package>, start: Package,
                                           u: set<Package>)
    requires IsWalk(g, exclude, w) && w[0] == start && Universe(g, start, u)
    ensures forall i :: 0 <= i < |w| ==> w[i] in u
  {
    if |w| > 1 {
      WalkStaysInside(g, exclude, Init(w), start, u);
    }
  }

  /** A simple walk of length n leaves exactly |u| - n packages unvisited. */
  lemma UnvisitedCount(g: Graph, exclude: (Package, Package), start: Package, path: seq<Package>, u: set<Package>)
    requires IsWalk(g, exclude, path) && Distinct(path) && path[0] == start && Universe(g, start, u)
    ensures |path| <= |u|
    ensures |u - Elements(path)| == |u| - |path|
  {
    WalkStaysInside(g, exclude, path, start, u);
    DistinctSize(path);
    var visited := Elements(path);
    assert visited <= u;
    assert u == (u - visited) + visited;
  }

  /** Replacing a path by its extensions makes the queue lighter. */
  lemma ExpansionIsLighter(n: nat, q: seq<Item>, children: seq<Item>)
    requires q != [] && |q[0].path| <= n && |children| <= n - |q[0].path|
    requires forall i :: 0 <= i < |children| ==> |children[i].path| == |q[0].path| + 1
    ensures QueueWeight(n, q[1..] + children) < QueueWeight(n, q)
  {
    var k := n - |q[0].path|;
    QueueWeightAppend(n, q[1..], children);
    if k > 0 {
      var weight := Weight(k - 1);
      QueueWeightUniform(n, children, |q[0].path| + 1, weight);
      Monotone(|children|, k, weight);
    }
  }

  lemma Monotone(a: nat, b: nat, w: nat)
    requires a <= b
    ensures a * w <= b * w
  {}

  // ----------------------------------------------------------- loop lemmas

  /** The extensions of a valid path are valid. */
  lemma ExtensionIsValid(g: Graph, exclude: (Package, Package), start: Package, it: Item, n: Package)
    requires ValidItem(g, exclude, start, it) && Prolongs(g, exclude, it.path, n)
    ensures ValidItem(g, exclude, start, Child(g, it, n)) && |Child(g, it, n).path| == |it.path| + 1
  {
    assert Init(Child(g, it, n).path) == it.path;
  }

  /** Popping a path that has reached the target: the new best beats it and all it beat before. */
  lemma PopArrived(g: Graph, exclude: (Package, Package), start: Package, target: Package,
                   q: seq<Item>, strength: int, best: seq<Package>, strength': int, best': seq<Package>)
    requires q != [] && ValidItem(g, exclude, start, q[0]) && Last(q[0].path) == target
    requires NothingLost(g, exclude, start, target, q, strength, best)
    requires |best| <= |q[0].path|
    requires if strength < q[0].strength then strength' == q[0].strength && best' == q[0].path
             else strength' == strength && best' == best
    ensures NothingLost(g, exclude, start, target, q[1..], strength', best')
  {
    forall p | Connects(g, exclude, start, target, p) && Distinct(p)
      ensures Beats(g, exclude, strength', best', p) || HasPrefixIn(q[1..], p)
    {
      if !Beats(g, exclude, strength, best, p) {
        var i :| 0 <= i < |q| && q[i].path <= p;
        if i == 0 {
          // A simple path ends where it first meets the target, so p is the popped path itself.
          assert p[|q[0].path| - 1] == target;
          assert p == q[0].path;
        } else {
          assert q[1..][i - 1].path <= p;
        }
      }
    }
  }

  lemma HasPrefixInAppend(a: seq<Item>, b: seq<Item>, p: seq<Package>)
    ensures HasPrefixIn(a + b, p) <==> HasPrefixIn(a, p) || HasPrefixIn(b, p)
  {
    if HasPrefixIn(a, p) {
      var i :| 0 <= i < |a| && a[i].path <= p;
      assert (a + b)[i] == a[i];
    }
    if HasPrefixIn(b, p) {
      var i :| 0 <= i < |b| && b[i].path <= p;
      assert (a + b)[|a| + i] == b[i];
    }
  }

  /** The package after a prefix of a simple walk prolongs the prefix. */
  lemma NextHop(g: Graph, exclude: (Package, Package), path: seq<Package>, p: seq<Package>)
    requires path != [] && IsWalk(g, exclude, p) && Distinct(p) && path <= p && |path| < |p|
    ensures Prolongs(g, exclude, path, p[|path|])
  {
    var n := |path|;
    PrefixOfWalk(g, exclude, p, n + 1);
    assert Init(p[..n + 1]) == path;
    assert forall i :: 0 <= i < n ==> path[i] == p[i] && p[i] != p[n];
  }

  /** A simple walk that goes on beyond a path goes on through one of its extensions. */
  lemma GoesThroughExtension(g: Graph, exclude: (Package, Package), it: Item, hops: seq<Package>, children: seq<Item>,
                             p: seq<Package>)
    requires it.path != [] && AreExtensions(g, exclude, it, hops, children)
    requires IsWalk(g, exclude, p) && Distinct(p) && it.path <= p && |it.path| < |p|
    ensures HasPrefixIn(children, p)
  {
    NextHop(g, exclude, it.path, p);
    var i :| 0 <= i < |hops| && hops[i] == p[|it.path|];
    assert children[i].path <= p;
  }

  /** Popping a path that has not reached the target: every completion starts with an extension. */
  lemma PopExpanded(g: Graph, exclude: (Package, Package), start: Package, target: Package,
                    q: seq<Item>, hops: seq<Package>, children: seq<Item>, strength: int, best: seq<Package>)
    requires q != [] && q[0].path != [] && Last(q[0].path) != target
    requires NothingLost(g, exclude, start, target, q, strength, best)
    requires AreExtensions(g, exclude, q[0], hops, children)
    ensures NothingLost(g, exclude, start, target, q[1..] + children, strength, best)
  {
    forall p | Connects(g, exclude, start, target, p) && Distinct(p)
      ensures Beats(g, exclude, strength, best, p) || HasPrefixIn(q[1..] + children, p)
    {
      HasPrefixInAppend(q[1..], children, p);
      if !Beats(g, exclude, strength, best, p) {
        var i :| 0 <= i < |q| && q[i].path <= p;
        if i == 0 {
          GoesThroughExtension(g, exclude, q[0], hops, children, p);
        } else {
          assert q[1..][i - 1].path <= p;
        }
      }
    }
  }

  lemma TailStaysValid(g: Graph, exclude: (Package, Package), start: Package, q: seq<Item>)
    requires q != [] && ValidQueue(g, exclude, start, q)
    ensures ValidQueue(g, exclude, start, q[1..])
    ensures forall i :: 0 <= i < |q| ==> |q[0].path| <= |q[i].path| <= |q[0].path| + 1
  {}

  /** Longer extensions join the queue behind shorter paths. */
  lemma QueueStaysValid(g: Graph, exclude: (Package, Package), start: Package, q: seq<Item>,
                        hops: seq<Package>, children: seq<Item>)
    requires q != [] && ValidItem(g, exclude, start, q[0]) && ValidQueue(g, exclude, start, q)
    requires AreExtensions(g, exclude, q[0], hops, children)
    ensures ValidQueue(g, exclude, start, q[1..] + children)
    ensures forall i :: 0 <= i < |q[1..] + children| ==> |q[0].path| <= |(q[1..] + children)[i].path|
    ensures forall i :: 0 <= i < |children| ==> |children[i].path| == |q[0].path| + 1
  {
    TailStaysValid(g, exclude, start, q);
    forall i | 0 <= i < |children|
      ensures ValidItem(g, exclude, start, children[i]) && |children[i].path| == |q[0].path| + 1
    {
      ExtensionIsValid(g, exclude, start, q[0], hops[i]);
    }
  }

  /** What the search knows each time it looks at the queue. */
  ghost predicate SearchInvariant(g: Graph, exclude: (Package, Package), start: Package, target: Package,
                                  q: seq<Item>, strength: int, best: seq<Package>)
  {
    && ValidQueue(g, exclude, start, q)
    && ValidBest(g, exclude, start, target, strength, best)
    && (forall i :: 0 <= i < |q| ==> |best| <= |q[i].path|)
    && (start == target ==> strength == 0)
    && (start != target ==> NothingLost(g, exclude, start, target, q, strength, best))
  }

  lemma SearchArrives(g: Graph, exclude: (Package, Package), start: Package, target: Package,
                      q: seq<Item>, strength: int, best: seq<Package>, strength': int, best': seq<Package>)
    requires q != [] && SearchInvariant(g, exclude, start, target, q, strength, best)
    requires ValidItem(g, exclude, start, q[0]) && Last(q[0].path) == target && |q[0].path| > 1
    requires if strength < q[0].strength then strength' == q[0].strength && best' == q[0].path
             else strength' == strength && best' == best
    ensures SearchInvariant(g, exclude, start, target, q[1..], strength', best')
  {
    TailStaysValid(g, exclude, start, q);
    PopArrived(g, exclude, start, target, q, strength, best, strength', best');
  }

  lemma SearchExpands(g: Graph, exclude: (Package, Package), start: Package, target: Package,
                      q: seq<Item>, hops: seq<Package>, children: seq<Item>, strength: int, best: seq<Package>)
    requires q != [] && SearchInvariant(g, exclude, start, target, q, strength, best)
    requires ValidItem(g, exclude, start, q[0]) && (Last(q[0].path) != target || |q[0].path| == 1)
    requires AreExtensions(g, exclude, q[0], hops, children)
    ensures SearchInvariant(g, exclude, start, target, q[1..] + children, strength, best)
    ensures forall i :: 0 <= i < |children| ==> |children[i].path| == |q[0].path| + 1
  {
    QueueStaysValid(g, exclude, start, q, hops, children);
    if start != target {
      PopExpanded(g, exclude, start, target, q, hops, children, strength, best);
    }
  }

  /** The neighbours loop: appends every extension of `it` that does not revisit a package. */
  method Extend(g: Graph, exclude: (Package, Package), ghost start: Package, ghost u: set<Package>, it: Item)
    returns (ghost hops: seq<Package>, children: seq<Item>)
    requires ValidItem(g, exclude, start, it) && Universe(g, start, u)
    ensures AreExtensions(g, exclude, it, hops, children) && Distinct(hops)
    ensures |it.path| <= |u| && |children| <= |u| - |it.path|
  {
    var node := Last(it.path);
    hops, children := [], [];
    var todo := if node in g then g[node].Keys else {};
    while todo != {}
      invariant forall n :: n in hops || n in todo ==> node in g && n in g[node]
      invariant forall n :: n in hops <==> Prolongs(g, exclude, it.path, n) && n !in todo
      invariant Distinct(hops) && |children| == |hops|
      invariant forall i :: 0 <= i < |hops| ==>
                Prolongs(g, exclude, it.path, hops[i]) && children[i] == Child(g, it, hops[i])
      decreases todo
    {
      var neighbor :| neighbor in todo;
      todo := todo - {neighbor};
      if (node, neighbor) != exclude && neighbor !in it.path {
        hops, children := hops + [neighbor], children + [Child(g, it, neighbor)];
      }
    }
    FewHops(g, exclude, start, u, it.path, hops);
  }

  /** A path cannot be prolonged in more ways than there are packages it has not visited. */
  lemma FewHops(g: Graph, exclude: (Package, Package), start: Package, u: set<Package>, path: seq<Package>,
                hops: seq<Package>)
    requires IsWalk(g, exclude, path) && Distinct(path) && path[0] == start && Universe(g, start, u)
    requires Distinct(hops) && forall i :: 0 <= i < |hops| ==> Prolongs(g, exclude, path, hops[i])
    ensures |path| <= |u| && |hops| <= |u| - |path|
  {
    UnvisitedCount(g, exclude, start, path, u);
    DistinctSize(hops);
    SubsetSize(Elements(hops), u - Elements(path));
  }

  /**
    The strongest path from `start` to `target` that does not use the edge `exclude`:
    its strength is the maximum over all walks of the level of the weakest edge, zero
    exactly when there is no walk, and the path returned is a shortest walk of that strength.
    A package is never joined to itself.
   */
  method BestPath(start: Package, target: Package, g: Graph, exclude: (Package, Package))
    returns (strength: int, best: seq<Package>)
    ensures start == target ==> strength == 0 && best == []
    ensures start != target ==> forall w :: Connects(g, exclude, start, target, w) ==>
              Bottleneck(g, exclude, w) <= strength
    ensures strength == 0 <==> best == []
    ensures strength != 0 ==> Connects(g, exclude, start, target, best) && Distinct(best)
                              && Bottleneck(g, exclude, best) == strength
    ensures strength != 0 ==>
            forall w :: Connects(g, exclude, start, target, w) && strength <= Bottleneck(g, exclude, w) ==>
              |best| <= |w|
  {
    strength, best := 0, [];
    if start !in g {
      NoWalkFromOutside(g, exclude, start, target);
      return;
    }
    ghost var u := {start} + set a, b | a in g && b in g[a] :: b;
    var q := [Item([start], UNBOUNDED)];
    assert SearchInvariant(g, exclude, start, target, q, strength, best) by {
      assert forall p :: Connects(g, exclude, start, target, p) ==> q[0].path <= p;
    }
    while q != []
      invariant SearchInvariant(g, exclude, start, target, q, strength, best)
      decreases QueueWeight(|u|, q)
    {
      var it := q[0];
      assert ValidItem(g, exclude, start, it);
      if Last(it.path) == target && |it.path| > 1 {
        ghost var strength0, best0 := strength, best;
        if strength < it.strength {
          strength, best := it.strength, it.path;
        }
        SearchArrives(g, exclude, start, target, q, strength0, best0, strength, best);
        q := q[1..];
      } else {
        ghost var hops;
        var children;
        hops, children := Extend(g, exclude, start, u, it);
        SearchExpands(g, exclude, start, target, q, hops, children, strength, best);
        ExpansionIsLighter(|u|, q, children);
        q := q[1..] + children;
      }
    }
    if start != target {
      SimplePathsSuffice(g, exclude, start, target, strength, best);
    }
  }

  lemma {:induction false} NoWalkFromOutside(g: Graph, exclude: (Package, Package), start: Package, target: Package)
    requires start !in g
    ensures forall w :: Connects(g, exclude, start, target, w) ==> start == target
  {
    forall w | Connects(g, exclude, start, target, w)
      ensures start == target
    {
      if |w| > 1 {
        PrefixOfWalk(g, exclude, w, 2);
      }
    }
  }

  /** Beating every simple path is beating every walk. */
  lemma SimplePathsSuffice(g: Graph, exclude: (Package, Package), start: Package, target: Package, strength: int,
                           best: seq<Package>)
    requires NothingLost(g, exclude, start, target, [], strength, best)
    ensures forall w :: Connects(g, exclude, start, target, w) ==> Beats(g, exclude, strength, best, w)
  {
    forall w | Connects(g, exclude, start, target, w)
      ensures Beats(g, exclude, strength, best, w)
    {
      var s := CutLoops(g, exclude, w);
    }
  }

  // ------------------------------------------------------- the whole report

  datatype Finding = Finding(pkg: Package, dep: Package, direct: Level, transitive: int, path: seq<Package>)

  predicate Reports(found: seq<Finding>, pkg: Package, dep: Package) {
    exists i :: 0 <= i < |found| && found[i].pkg == pkg && found[i].dep == dep
  }

  /** The edge is reported exactly when the rule makes it redundant. */
  ghost predicate Decided(g: Graph, found: seq<Finding>, e: (Package, Package)) {
    e.0 in g && e.1 in g[e.0] ==> (Reports(found, e.0, e.1) <==> e.0 != e.1 && Redundant(g, e.0, e.1))
  }

  /** A reported edge carries its own level and a path that meets the rule. */
  predicate Justified(g: Graph, f: Finding) {
    && f.pkg in g && f.dep in g[f.pkg] && f.direct == g[f.pkg][f.dep]
    && Connects(g, (f.pkg, f.dep), f.pkg, f.dep, f.path)
    && EveryEdgeAtLeast(g, f.path, f.direct)
    && f.direct <= f.transitive
  }

  /** What the loop does for one dependency. */
  method Examine(g: Graph, e: (Package, Package)) returns (f: Option<Finding>)
    requires e.0 in g && e.1 in g[e.0]
    ensures f.Some? <==> e.0 != e.1 && Redundant(g, e.0, e.1)
    ensures f.Some? ==> Justified(g, f.value) && (f.value.pkg, f.value.dep) == e
  {
    var strength, path := BestPath(e.0, e.1, g, e);
    RedundantIsStrong(g, e, strength, path);
    if g[e.0][e.1] <= strength {
      BottleneckIsEveryEdge(g, e, path, g[e.0][e.1]);
      return Some(Finding(e.0, e.1, g[e.0][e.1], strength, path));
    }
    f := None;
  }

  /**
    The redundancy loop: exactly the direct dependencies that some transitive path of at
    least the same level makes redundant are reported, each once and with such a path.
    A package that depends on itself is not reported.
   */
  method FindRedundant(g: Graph) returns (found: seq<Finding>)
    ensures forall pkg, dep :: pkg in g && dep in g[pkg] ==>
              (Reports(found, pkg, dep) <==> pkg != dep && Redundant(g, pkg, dep))
    ensures forall i :: 0 <= i < |found| ==> Justified(g, found[i])
    ensures forall i, j :: 0 <= i < j < |found| ==> (found[i].pkg, found[i].dep) != (found[j].pkg, found[j].dep)
  {
    found := [];
    var todo := set a, b | a in g && b in g[a] :: (a, b);
    ghost var all := todo;
    while todo != {}
      invariant todo <= all
      invariant forall i :: 0 <= i < |found| ==> Justified(g, found[i]) && (found[i].pkg, found[i].dep) !in todo
      invariant forall i, j :: 0 <= i < j < |found| ==> (found[i].pkg, found[i].dep) != (found[j].pkg, found[j].dep)
      invariant forall e :: e in all && e !in todo ==> Decided(g, found, e)
      decreases todo
    {
      var e :| e in todo;
      todo := todo - {e};
      var f := Examine(g, e);
      if f.Some? {
        ReportsAfter(g, found, f.value);
        found := found + [f.value];
      }
    }
    forall pkg, dep | pkg in g && dep in g[pkg]
      ensures Reports(found, pkg, dep) <==> pkg != dep && Redundant(g, pkg, dep)
    {
      assert Decided(g, found, (pkg, dep));
    }
  }

  lemma ReportsAfter(g: Graph, found: seq<Finding>, f: Finding)
    ensures Reports(found + [f], f.pkg, f.dep)
    ensures forall e :: Decided(g, found, e) && e != (f.pkg, f.dep) ==> Decided(g, found + [f], e)
  {
    assert (found + [f])[|found|] == f;
    assert forall i :: 0 <= i < |found| ==> (found + [f])[i] == found[i];
  }

  /** The comparison the tool makes, against the rule it states. */
  lemma RedundantIsStrong(g: Graph, e: (Package, Package), strength: int, best: seq<Package>)
    requires e.0 in g && e.1 in g[e.0]
    requires e.0 == e.1 ==> strength == 0
    requires e.0 != e.1 ==> forall w :: Connects(g, e, e.0, e.1, w) ==> Bottleneck(g, e, w) <= strength
    requires strength != 0 ==> Connects(g, e, e.0, e.1, best) && Bottleneck(g, e, best) == strength
    ensures g[e.0][e.1] <= strength <==> e.0 != e.1 && Redundant(g, e.0, e.1)
  {
    var level := g[e.0][e.1];
    if level <= strength {
      BottleneckIsEveryEdge(g, e, best, level);
    }
    if e.0 != e.1 && Redundant(g, e.0, e.1) {
      var w :| Connects(g, e, e.0, e.1, w) && EveryEdgeAtLeast(g, w, level);
      BottleneckIsEveryEdge(g, e, w, level);
    }
  }
}
