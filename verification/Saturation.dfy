/**
  Planning the saturation bundle of a base (tools/build_saturation.py: `plan`): every bundle group
  and every profile's own additions that the base can serve, resolved piece by piece.
 */
module Saturation {
  import opened Common
  import opened Resolver

  datatype Group = Group(id: string, items: seq<Ref>)

  /** A profile's id and its own additions, by name. */
  datatype Additions = Additions(id: string, names: seq<string>)

  datatype Plan =
    | Plan(included: seq<Group>, skipped: seq<(string, Refusal)>, excludedGroups: seq<string>,
           added: seq<Additions>, skippedAdditions: seq<(string, Refusal)>,
           packageExclusions: set<string>, concreteUnion: set<string>)
    | StaleExclusion(name: string)

  function Refs(names: seq<string>): (r: seq<Ref>)
    ensures |r| == |names|
  {
    seq(|names|, i requires 0 <= i < |names| => Plain(names[i]))
  }

  /** Setting a key of a dictionary: its value is replaced where it stands, or it goes to the end. */
  function SetKey(d: seq<Additions>, a: Additions): seq<Additions> {
    if d == [] then [a]
    else if d[0].id == a.id then [a] + d[1..]
    else [d[0]] + SetKey(d[1..], a)
  }

  /** The groups that are neither excluded nor beyond what the base can serve. */
  function Servable(t: Target, bundles: seq<Group>, exclusions: map<string, string>): seq<Group> {
    if bundles == [] then []
    else Servable(t, Init(bundles), exclusions)
         + (if Last(bundles).id !in exclusions && Resolve(t, Last(bundles).items).Ok? then [Last(bundles)] else [])
  }

  /** The additions the base can serve; of two profiles with one id the later counts. */
  function ServableAdditions(t: Target, profiles: seq<Additions>): seq<Additions> {
    if profiles == [] then []
    else
      var before, p := ServableAdditions(t, Init(profiles)), Last(profiles);
      if p.names != [] && Resolve(t, Refs(p.names)).Ok? then SetKey(before, p) else before
  }

  /** Everything that goes into the bundle, as one list. */
  function AllItems(groups: seq<Group>, added: seq<Additions>): seq<Ref> {
    GroupItems(groups) + AddedItems(added)
  }

  function GroupItems(groups: seq<Group>): seq<Ref> {
    if groups == [] then [] else GroupItems(Init(groups)) + Last(groups).items
  }

  function AddedItems(added: seq<Additions>): seq<Ref> {
    if added == [] then [] else AddedItems(Init(added)) + Refs(Last(added).names)
  }

  function BundleIds(bundles: seq<Group>): set<string> {
    set g | g in bundles :: g.id
  }

  /** A resolution that succeeded with exactly these packages. */
  predicate ResolvesTo(t: Target, items: seq<Ref>, packages: set<string>) {
    Resolve(t, items).Ok? && Elements(Resolve(t, items).value) == packages
  }

  lemma ResolvesToAppend(t: Target, a: seq<Ref>, b: seq<Ref>, x: set<string>, y: set<string>)
    requires ResolvesTo(t, a, x) && ResolvesTo(t, b, y)
    ensures ResolvesTo(t, a + b, x + y)
  {
    ResolveAppend(t, a, b);
  }

  predicate AllGroupsResolve(t: Target, groups: seq<Group>) {
    forall i :: 0 <= i < |groups| ==> Resolve(t, groups[i].items).Ok?
  }

  predicate AllAdditionsResolve(t: Target, added: seq<Additions>) {
    forall i :: 0 <= i < |added| ==> Resolve(t, Refs(added[i].names)).Ok?
  }

  lemma {:induction false} SetKeyResolves(t: Target, d: seq<Additions>, a: Additions)
    requires AllAdditionsResolve(t, d) && Resolve(t, Refs(a.names)).Ok?
    ensures AllAdditionsResolve(t, SetKey(d, a))
  {
    if d != [] && d[0].id != a.id {
      SetKeyResolves(t, d[1..], a);
    }
  }

  /** The group is skipped, with this refusal of its own resolution. */
  predicate IsSkipped(t: Target, g: Group, exclusions: map<string, string>, entry: (string, Refusal)) {
    g.id == entry.0 && g.id !in exclusions && Resolve(t, g.items) == Err(entry.1)
  }

  /** The additions of the profile are skipped, with this refusal. */
  predicate IsSkippedAddition(t: Target, p: Additions, entry: (string, Refusal)) {
    p.id == entry.0 && p.names != [] && Resolve(t, Refs(p.names)) == Err(entry.1)
  }

  /** The groups that are not excluded and that the base refuses, in order, each with its refusal. */
  function SkippedGroups(t: Target, bundles: seq<Group>, exclusions: map<string, string>): seq<(string, Refusal)> {
    if bundles == [] then []
    else
      var g := Last(bundles);
      SkippedGroups(t, Init(bundles), exclusions)
      + (if g.id !in exclusions && Resolve(t, g.items).Err? then [(g.id, Resolve(t, g.items).error)] else [])
  }

  function SkippedAdditions(t: Target, profiles: seq<Additions>): seq<(string, Refusal)> {
    if profiles == [] then []
    else
      var p := Last(profiles);
      SkippedAdditions(t, Init(profiles))
      + (if p.names != [] && Resolve(t, Refs(p.names)).Err? then [(p.id, Resolve(t, Refs(p.names)).error)] else [])
  }

  lemma {:induction false} SkippedAre(t: Target, bundles: seq<Group>, exclusions: map<string, string>,
                                      e: (string, Refusal))
    ensures e in SkippedGroups(t, bundles, exclusions) <==> exists g :: g in bundles && IsSkipped(t, g, exclusions, e)
  {
    if bundles != [] {
      var g := Last(bundles);
      SkippedAre(t, Init(bundles), exclusions, e);
      assert e == (e.0, e.1);
      assert IsSkipped(t, g, exclusions, e) <==>
             g.id !in exclusions && Resolve(t, g.items).Err? && e == (g.id, Resolve(t, g.items).error);
      assert forall x :: x in bundles <==> x in Init(bundles) || x == g;
    }
  }

  lemma {:induction false} SkippedAdditionsAre(t: Target, profiles: seq<Additions>, e: (string, Refusal))
    ensures e in SkippedAdditions(t, profiles) <==> exists p :: p in profiles && IsSkippedAddition(t, p, e)
  {
    if profiles != [] {
      var p := Last(profiles);
      SkippedAdditionsAre(t, Init(profiles), e);
      assert e == (e.0, e.1);
      assert IsSkippedAddition(t, p, e) <==>
             p.names != [] && Resolve(t, Refs(p.names)).Err? && e == (p.id, Resolve(t, Refs(p.names)).error);
      assert forall x :: x in profiles <==> x in Init(profiles) || x == p;
    }
  }

  /** A plan names exactly the groups and additions it leaves out, with the refusal of each that was skipped. */
  ghost predicate NamesReasons(t: Target, bundles: seq<Group>, profiles: seq<Additions>,
                               exclusions: map<string, string>, plan: Plan)
    requires plan.Plan?
  {
    && (forall e :: e in plan.skipped <==> exists g :: g in bundles && IsSkipped(t, g, exclusions, e))
    && (forall e :: e in plan.skippedAdditions <==> exists p :: p in profiles && IsSkippedAddition(t, p, e))
    && (forall id :: id in plan.excludedGroups <==> id in exclusions && exists g :: g in bundles && g.id == id)
  }

  /** The first loop of plan: which groups go in, and why the others do not. */
  method SelectGroups(t: Target, bundles: seq<Group>, exclusions: map<string, string>)
    returns (included: seq<Group>, skipped: seq<(string, Refusal)>, excludedGroups: seq<string>)
    ensures included == Servable(t, bundles, exclusions) && AllGroupsResolve(t, included)
    ensures skipped == SkippedGroups(t, bundles, exclusions)
    ensures forall id :: id in excludedGroups <==> id in exclusions && exists g :: g in bundles && g.id == id
  {
    included, skipped, excludedGroups := [], [], [];
    var i := 0;
    while i < |bundles|
      invariant 0 <= i <= |bundles|
      invariant included == Servable(t, bundles[..i], exclusions) && AllGroupsResolve(t, included)
      invariant skipped == SkippedGroups(t, bundles[..i], exclusions)
      invariant forall id :: id in excludedGroups <==> id in exclusions && exists g :: g in bundles[..i] && g.id == id
    {
      var g := bundles[i];
      assert bundles[..i + 1] == bundles[..i] + [g] && Init(bundles[..i + 1]) == bundles[..i];
      if g.id in exclusions {
        excludedGroups := excludedGroups + [g.id];
      } else {
        var resolved := Resolve(t, g.items);
        if resolved.Err? {
          skipped := skipped + [(g.id, resolved.error)];
        } else {
          included := included + [g];
        }
      }
      i := i + 1;
    }
    assert bundles[..i] == bundles;
  }

  /** The second loop: which additions go in, and why the others do not. */
  method SelectAdditions(t: Target, profiles: seq<Additions>)
    returns (added: seq<Additions>, skippedAdditions: seq<(string, Refusal)>)
    ensures added == ServableAdditions(t, profiles) && AllAdditionsResolve(t, added)
    ensures skippedAdditions == SkippedAdditions(t, profiles)
  {
    added, skippedAdditions := [], [];
    var i := 0;
    while i < |profiles|
      invariant 0 <= i <= |profiles|
      invariant added == ServableAdditions(t, profiles[..i]) && AllAdditionsResolve(t, added)
      invariant skippedAdditions == SkippedAdditions(t, profiles[..i])
    {
      var p := profiles[i];
      assert profiles[..i + 1] == profiles[..i] + [p] && Init(profiles[..i + 1]) == profiles[..i];
      if p.names != [] {
        var resolved := Resolve(t, Refs(p.names));
        if resolved.Err? {
          skippedAdditions := skippedAdditions + [(p.id, resolved.error)];
        } else {
          SetKeyResolves(t, added, p);
          added := SetKey(added, p);
        }
      }
      i := i + 1;
    }
    assert profiles[..i] == profiles;
  }

  /** The next loops: the union of the pieces is one resolution of everything that goes in. */
  method Union(t: Target, included: seq<Group>, added: seq<Additions>) returns (union: set<string>)
    requires AllGroupsResolve(t, included) && AllAdditionsResolve(t, added)
    ensures ResolvesTo(t, AllItems(included, added), union)
  {
    union := {};
    var i := 0;
    while i < |included|
      invariant 0 <= i <= |included|
      invariant ResolvesTo(t, GroupItems(included[..i]), union)
    {
      assert Init(included[..i + 1]) == included[..i];
      var resolved := Resolve(t, included[i].items);
      ResolvesToAppend(t, GroupItems(included[..i]), included[i].items, union, Elements(resolved.value));
      union := union + Elements(resolved.value);
      i := i + 1;
    }
    assert included[..i] == included;
    assert GroupItems(included) + AddedItems(added[..0]) == GroupItems(included);
    i := 0;
    while i < |added|
      invariant 0 <= i <= |added|
      invariant ResolvesTo(t, GroupItems(included) + AddedItems(added[..i]), union)
    {
      assert Init(added[..i + 1]) == added[..i];
      var resolved := Resolve(t, Refs(added[i].names));
      var before := GroupItems(included) + AddedItems(added[..i]);
      ResolvesToAppend(t, before, Refs(added[i].names), union, Elements(resolved.value));
      assert before + Refs(added[i].names) == GroupItems(included) + AddedItems(added[..i + 1]);
      union := union + Elements(resolved.value);
      i := i + 1;
    }
    assert added[..i] == added;
  }

  /**
    plan: the piecewise union is what one resolution of all included groups and additions gives,
    minus the excluded packages, each of which was in it; an exclusion that names neither a group
    nor such a package is refused.
   */
  method MakePlan(t: Target, bundles: seq<Group>, profiles: seq<Additions>, exclusions: map<string, string>)
    returns (plan: Plan)
    ensures var all := AllItems(Servable(t, bundles, exclusions), ServableAdditions(t, profiles));
            var packageExclusions := exclusions.Keys - BundleIds(bundles);
            Resolve(t, all).Ok? &&
            var union := Elements(Resolve(t, all).value);
            && (plan.StaleExclusion? <==> !(packageExclusions <= union))
            && (plan.StaleExclusion? ==> plan.name in packageExclusions && plan.name !in union)
            && (plan.Plan? ==>
                  && plan.included == Servable(t, bundles, exclusions) && plan.added == ServableAdditions(t, profiles)
                  && plan.packageExclusions == packageExclusions && plan.concreteUnion == union - packageExclusions)
    ensures plan.Plan? ==> NamesReasons(t, bundles, profiles, exclusions, plan)
  {
    var included, skipped, excludedGroups := SelectGroups(t, bundles, exclusions);
    var added, skippedAdditions := SelectAdditions(t, profiles);
    var union := Union(t, included, added);
    var packages, names := union, {};
    var todo := exclusions.Keys;
    while todo != {}
      invariant todo <= exclusions.Keys
      invariant names == (exclusions.Keys - todo) - BundleIds(bundles)
      invariant names <= union && packages == union - names
      decreases todo
    {
      var name :| name in todo;
      todo := todo - {name};
      if name !in BundleIds(bundles) {
        if name !in packages {
          return StaleExclusion(name);
        }
        packages := packages - {name};
        names := names + {name};
      }
    }
    plan := Plan(included, skipped, excludedGroups, added, skippedAdditions, names, packages);
    forall e
      ensures e in skipped <==> exists g :: g in bundles && IsSkipped(t, g, exclusions, e)
      ensures e in skippedAdditions <==> exists p :: p in profiles && IsSkippedAddition(t, p, e)
    {
      SkippedAre(t, bundles, exclusions, e);
      SkippedAdditionsAre(t, profiles, e);
    }
  }

  /** A group that was skipped could not have been added: the whole would have been refused. */
  lemma SkippedWouldRefuse(t: Target, included: seq<Group>, added: seq<Additions>, g: Group)
    requires Resolve(t, AllItems(included, added)).Ok? && Resolve(t, g.items).Err?
    ensures Resolve(t, AllItems(included, added) + g.items) == Resolve(t, g.items)
  {
    ExpandAppend(t, AllItems(included, added), g.items);
  }
}
