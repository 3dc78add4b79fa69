/**
  The keyed locks of tools/build_packages.py: one lock per shared resource, made on first use
  (`_lock_for`), taken one at a time around fork downloads and all together, in sorted order,
  around a recipe's prebuild.sh.
 */
module KeyedLocks {
  import opened Common

  // ------------------------------------------------------- the order of keys

  /** A key is a tuple of strings. */
  type Key = seq<string>

  predicate StringLess(a: string, b: string) {
    b != [] && (a == [] || a[0] < b[0] || (a[0] == b[0] && StringLess(a[1..], b[1..])))
  }

  /** Tuples compare at their first difference, and a proper prefix comes first. */
  predicate KeyLess(a: Key, b: Key) {
    b != [] && (a == [] || StringLess(a[0], b[0]) || (a[0] == b[0] && KeyLess(a[1..], b[1..])))
  }

  lemma {:induction false} StringIrreflexive(a: string)
    ensures !StringLess(a, a)
  {
    if a != [] {
      StringIrreflexive(a[1..]);
    }
  }

  lemma {:induction false} StringOrder(a: string, b: string)
    ensures !(StringLess(a, b) && StringLess(b, a))
    ensures a == b || StringLess(a, b) || StringLess(b, a)
  {
    if a != [] && b != [] {
      StringOrder(a[1..], b[1..]);
      assert a[0] == b[0] && a[1..] == b[1..] ==> a == [a[0]] + a[1..] == b;
    }
  }

  lemma {:induction false} StringTransitive(a: string, b: string, c: string)
    requires StringLess(a, b) && StringLess(b, c)
    ensures StringLess(a, c)
  {
    if a != [] && a[0] == b[0] == c[0] {
      StringTransitive(a[1..], b[1..], c[1..]);
    }
  }

  lemma {:induction false} KeyIrreflexive(a: Key)
    ensures !KeyLess(a, a)
  {
    if a != [] {
      StringIrreflexive(a[0]);
      KeyIrreflexive(a[1..]);
    }
  }

  lemma {:induction false} KeyOrder(a: Key, b: Key)
    ensures !(KeyLess(a, b) && KeyLess(b, a))
    ensures a == b || KeyLess(a, b) || KeyLess(b, a)
  {
    if a != [] && b != [] {
      StringOrder(a[0], b[0]);
      StringIrreflexive(a[0]);
      KeyOrder(a[1..], b[1..]);
      assert a[0] == b[0] && a[1..] == b[1..] ==> a == [a[0]] + a[1..] == b;
    }
  }

  lemma {:induction false} KeyTransitive(a: Key, b: Key, c: Key)
    requires KeyLess(a, b) && KeyLess(b, c)
    ensures KeyLess(a, c)
  {
    if a != [] {
      if StringLess(a[0], b[0]) && StringLess(b[0], c[0]) {
        StringTransitive(a[0], b[0], c[0]);
      } else if a[0] == b[0] == c[0] {
        KeyTransitive(a[1..], b[1..], c[1..]);
      }
    }
  }

  ghost predicate KeysSorted(s: seq<Key>) {
    forall i, j :: 0 <= i < j < |s| ==> KeyLess(s[i], s[j])
  }

  /** `sorted` of a set of keys: every key once, in increasing order. */
  method Sorted(keys: set<Key>) returns (s: seq<Key>)
    ensures KeysSorted(s) && Elements(s) == keys
  {
    s := [];
    var todo := keys;
    while todo != {}
      invariant KeysSorted(s) && todo <= keys && todo !! Elements(s) && keys == todo + Elements(s)
      decreases todo
    {
      var key :| key in todo;
      todo := todo - {key};
      var i := 0;
      while i < |s| && KeyLess(s[i], key)
        invariant i <= |s| && forall k :: 0 <= k < i ==> KeyLess(s[k], key)
      {
        i := i + 1;
      }
      InsertSorted(s, i, key);
      s := s[..i] + [key] + s[i..];
    }
  }

  lemma InsertSorted(s: seq<Key>, i: nat, key: Key)
    requires KeysSorted(s) && key !in s && i <= |s|
    requires forall k :: 0 <= k < i ==> KeyLess(s[k], key)
    requires i < |s| ==> !KeyLess(s[i], key)
    ensures KeysSorted(s[..i] + [key] + s[i..])
    ensures Elements(s[..i] + [key] + s[i..]) == Elements(s) + {key}
  {
    assert s == s[..i] + s[i..];
    forall k | i <= k < |s|
      ensures KeyLess(key, s[k])
    {
      KeyOrder(s[i], key);
      if i < k {
        KeyTransitive(key, s[i], s[k]);
      }
    }
  }

  // ------------------------------------------------------------- the locks

  class Lock {
    constructor () {}
  }

  /** `_KEYED_LOCKS`: under its guard, each key is given one lock, and no lock serves two keys. */
  class LockTable {
    var locks: map<Key, Lock>

    ghost predicate Valid()
      reads this
    {
      forall a, b :: a in locks && b in locks && locks[a] == locks[b] ==> a == b
    }

    constructor ()
      ensures Valid() && locks == map[]
    {
      locks := map[];
    }

    method LockFor(key: Key) returns (lock: Lock)
      requires Valid()
      modifies this
      ensures Valid()
      ensures key in locks && locks[key] == lock
      ensures key in old(locks) ==> locks == old(locks)
      ensures key !in old(locks) ==> fresh(lock) && locks == old(locks)[key := lock]
    {
      if key in locks {
        lock := locks[key];
      } else {
        lock := new Lock();
        assert forall a :: a in locks ==> locks[a] != lock;
        locks := locks[key := lock];
      }
    }
  }

  // ----------------------------------------------------- what a build takes

  /** The locks of a run: the guard of the table, the lock around notes, and one per key. */
  datatype LockId = Guard | Print | Keyed(key: Key)

  predicate LockLess(a: LockId, b: LockId) {
    match (a, b)
    case (Keyed(k), Keyed(l)) => KeyLess(k, l)
    case (Guard, Guard) => false
    case (Guard, _) => true
    case (Print, Keyed(_)) => true
    case _ => false
  }

  /** Locks taken in this order, held together while something runs, and then all released. */
  type Section = seq<LockId>

  type Program = seq<Section>

  ghost predicate InOrder(s: Section) {
    forall i, j :: 0 <= i < j < |s| ==> LockLess(s[i], s[j])
  }

  ghost predicate Disciplined(p: Program) {
    forall i :: 0 <= i < |p| ==> InOrder(p[i])
  }

  /** What fetch_fork takes for a recipe, and the sorted keys of its prebuild.sh, if it has one. */
  datatype Recipe = Recipe(fork: Option<(string, string)>, prebuild: Option<seq<Key>>)

  const SOURCE_CACHE: string := "source-cache"
  const UNKNOWN_PATH: string := "unknown-path"

  function CacheLocks(keys: seq<Key>): Section {
    seq(|keys|, i requires 0 <= i < |keys| => Keyed([SOURCE_CACHE] + keys[i]))
  }

  /** The lock around notes is taken only for a recipe with an unrecognized path. */
  function NoteSections(keys: seq<Key>): Program {
    if exists i :: 0 <= i < |keys| && keys[i] != [] && keys[i][0] == UNKNOWN_PATH then [[Print]] else []
  }

  /** The sections of one package build, in program order; the last one runs prebuild.sh. */
  function BuildSections(r: Recipe): Program {
    (match r.fork
     case None => []
     case Some((index, deb)) => [[Guard], [Keyed(["fork-index", index])], [Guard], [Keyed(["fork-deb", deb])]])
    + (match r.prebuild
       case None => []
       case Some(keys) => NoteSections(keys) + seq(|keys|, _ => [Guard]) + [CacheLocks(keys)])
  }

  /** Sorted keys make every section of a build take its locks in increasing order. */
  lemma BuildIsDisciplined(r: Recipe)
    requires r.prebuild.Some? ==> KeysSorted(r.prebuild.value)
    ensures Disciplined(BuildSections(r))
    ensures r.prebuild.Some? ==> BuildSections(r) != [] && Last(BuildSections(r)) == CacheLocks(r.prebuild.value)
  {
    if r.prebuild.Some? {
      var keys := r.prebuild.value;
      forall i, j | 0 <= i < j < |keys|
        ensures LockLess(CacheLocks(keys)[i], CacheLocks(keys)[j])
      {
        StringIrreflexive(SOURCE_CACHE);
        assert ([SOURCE_CACHE] + keys[i])[1..] == keys[i] && ([SOURCE_CACHE] + keys[j])[1..] == keys[j];
      }
      assert InOrder(CacheLocks(keys));
    }
  }

  // ------------------------------------------------------------- executions

  datatype Mode = Acquiring | Running | Releasing

  datatype Status =
    | Queued
    | In(section: nat, held: nat, mode: Mode)
    | Done

  /** Every build, how far it is, and who owns each lock that is taken. */
  datatype Pool = Pool(programs: seq<Program>, jobs: nat, status: seq<Status>, owner: map<LockId, nat>)

  function Start(programs: seq<Program>, jobs: nat): Pool {
    Pool(programs, jobs, seq(|programs|, _ => Queued), map[])
  }

  /**
    Begin takes a free worker of the thread pool.  Skip is the `is_file` check that makes a
    download unnecessary; Abort is an exception leaving a section whose locks are released;
    Cancel drops a build that has not begun, as main does after the first error.
   */
  datatype Action = Begin | Acquire | Enter | Leave | Release | Proceed | Skip | Abort | Cancel

  /** The steps of a build that goes its whole way. */
  predicate IsNextStep(a: Action) {
    !a.Skip? && !a.Abort? && !a.Cancel?
  }

  function ActiveCount(status: seq<Status>): nat {
    if status == [] then 0 else (if status[0].In? then 1 else 0) + ActiveCount(status[1..])
  }

  predicate WellFormed(s: Pool) {
    && |s.status| == |s.programs|
    && forall t :: 0 <= t < |s.status| && s.status[t].In? ==> InRange(s.programs[t], s.status[t])
  }

  predicate InRange(p: Program, st: Status)
    requires st.In?
  {
    && st.section < |p| && st.held <= |p[st.section]|
    && (st.mode.Running? ==> st.held == |p[st.section]|)
  }

  predicate Enabled(s: Pool, t: nat, a: Action)
    requires WellFormed(s)
  {
    t < |s.status| &&
    var st := s.status[t];
    match a
    case Begin => st.Queued? && ActiveCount(s.status) < s.jobs
    case Acquire => st.In? && st.mode.Acquiring? && st.held < |s.programs[t][st.section]|
                    && s.programs[t][st.section][st.held] !in s.owner
    case Enter => st.In? && st.mode.Acquiring? && st.held == |s.programs[t][st.section]|
    case Leave => st.In? && st.mode.Running?
    case Release => st.In? && st.mode.Releasing? && st.held > 0
    case Proceed => st.In? && st.mode.Releasing? && st.held == 0
    case Skip => st.In? && st.mode.Acquiring? && st.held == 0
    case Abort => st.In? && st.mode.Releasing? && st.held == 0
    case Cancel => st.Queued?
  }

  function AtSection(p: Program, i: nat): Status {
    if i < |p| then In(i, 0, Acquiring) else Done
  }

  function NextStatus(s: Pool, t: nat, a: Action): Status
    requires WellFormed(s) && Enabled(s, t, a)
  {
    var st := s.status[t];
    match a
    case Begin => AtSection(s.programs[t], 0)
    case Acquire => st.(held := st.held + 1)
    case Enter => st.(mode := Running)
    case Leave => st.(mode := Releasing)
    case Release => st.(held := st.held - 1)
    case Proceed => AtSection(s.programs[t], st.section + 1)
    case Skip => AtSection(s.programs[t], st.section + 1)
    case Abort => Done
    case Cancel => Done
  }

  function NextOwner(s: Pool, t: nat, a: Action): map<LockId, nat>
    requires WellFormed(s) && Enabled(s, t, a)
  {
    var st := s.status[t];
    if a.Acquire? then s.owner[s.programs[t][st.section][st.held] := t]
    else if a.Release? then s.owner - {s.programs[t][st.section][st.held - 1]}
    else s.owner
  }

  function Next(s: Pool, t: nat, a: Action): Pool
    requires WellFormed(s) && Enabled(s, t, a)
    ensures WellFormed(Next(s, t, a))
  {
    s.(status := s.status[t := NextStatus(s, t, a)], owner := NextOwner(s, t, a))
  }

  type Schedule = seq<(nat, Action)>

  predicate CanRun(s: Pool, run: Schedule)
    requires WellFormed(s)
    decreases |run|
  {
    run == [] || (Enabled(s, run[0].0, run[0].1) && CanRun(Next(s, run[0].0, run[0].1), run[1..]))
  }

  function Run(s: Pool, run: Schedule): (r: Pool)
    requires WellFormed(s) && CanRun(s, run)
    ensures WellFormed(r) && r.programs == s.programs && r.jobs == s.jobs
    decreases |run|
  {
    if run == [] then s else Run(Next(s, run[0].0, run[0].1), run[1..])
  }

  // ------------------------------------------------------------- invariant

  /** The locks a build has at this moment. */
  function HeldBy(s: Pool, t: nat): Section
    requires WellFormed(s) && t < |s.status|
  {
    if s.status[t].In? then s.programs[t][s.status[t].section][..s.status[t].held] else []
  }

  predicate Has(s: Pool, t: nat, l: LockId)
    requires WellFormed(s)
  {
    t < |s.status| && l in HeldBy(s, t)
  }

  /** A lock is owned by a build exactly when it is among those the build has taken and not yet released. */
  ghost predicate OwnersAgree(s: Pool)
    requires WellFormed(s)
  {
    forall t: nat, l :: Has(s, t, l) <==> l in s.owner && s.owner[l] == t
  }

  ghost predicate AllDisciplined(s: Pool) {
    forall t :: 0 <= t < |s.programs| ==> Disciplined(s.programs[t])
  }

  ghost predicate Inv(s: Pool) {
    WellFormed(s) && AllDisciplined(s) && OwnersAgree(s)
  }

  lemma LockOrder(a: LockId, b: LockId, c: LockId)
    ensures !LockLess(a, a)
    ensures LockLess(a, b) && LockLess(b, c) ==> LockLess(a, c)
  {
    if a.Keyed? {
      KeyIrreflexive(a.key);
      if b.Keyed? && c.Keyed? && LockLess(a, b) && LockLess(b, c) {
        KeyTransitive(a.key, b.key, c.key);
      }
    }
  }

  /** In an ordered section a lock occurs once. */
  lemma OrderedIsDistinct(p: Section, n: nat, l: LockId)
    requires InOrder(p) && n < |p|
    ensures p[n] !in p[..n]
    ensures l in p[..n + 1] <==> l in p[..n] || l == p[n]
  {
    LockOrder(p[n], p[n], p[n]);
    assert p[..n + 1] == p[..n] + [p[n]];
  }

  /** A step moves at most one lock, into or out of the hands of the build that acts. */
  lemma HeldAfter(s: Pool, t: nat, a: Action, l: LockId)
    requires WellFormed(s) && AllDisciplined(s) && Enabled(s, t, a)
    ensures var p := s.programs[t]; var st := s.status[t];
            Has(Next(s, t, a), t, l) <==>
              if a.Acquire? then Has(s, t, l) || l == p[st.section][st.held]
              else if a.Release? then Has(s, t, l) && l != p[st.section][st.held - 1]
              else Has(s, t, l)
  {
    var st := s.status[t];
    if a.Acquire? {
      OrderedIsDistinct(s.programs[t][st.section], st.held, l);
    } else if a.Release? {
      OrderedIsDistinct(s.programs[t][st.section], st.held - 1, l);
    }
  }

  /** The lock a release gives back is one the build owns. */
  lemma ReleasesOwn(s: Pool, t: nat)
    requires WellFormed(s) && Enabled(s, t, Release)
    ensures var st := s.status[t]; Has(s, t, s.programs[t][st.section][st.held - 1])
  {
    var st := s.status[t];
    assert HeldBy(s, t)[st.held - 1] == s.programs[t][st.section][st.held - 1];
  }

  lemma StepKeeps(s: Pool, t: nat, a: Action)
    requires Inv(s) && Enabled(s, t, a)
    ensures Inv(Next(s, t, a))
  {
    var s' := Next(s, t, a);
    if a.Release? {
      ReleasesOwn(s, t);
    }
    forall u: nat, l
      ensures Has(s', u, l) <==> l in s'.owner && s'.owner[l] == u
    {
      assert Has(s, u, l) <==> l in s.owner && s.owner[l] == u;
      if u == t {
        HeldAfter(s, t, a, l);
      } else {
        assert Has(s', u, l) == Has(s, u, l);
      }
    }
  }

  lemma {:induction false} RunKeeps(s: Pool, run: Schedule)
    requires Inv(s) && CanRun(s, run)
    ensures Inv(Run(s, run))
    decreases |run|
  {
    if run != [] {
      StepKeeps(s, run[0].0, run[0].1);
      RunKeeps(Next(s, run[0].0, run[0].1), run[1..]);
    }
  }

  lemma StartKeeps(programs: seq<Program>, jobs: nat)
    requires forall t :: 0 <= t < |programs| ==> Disciplined(programs[t])
    ensures Inv(Start(programs, jobs))
  {}

  // -------------------------------------------------------- mutual exclusion

  /** Two builds never hold one lock together. */
  lemma MutualExclusion(s: Pool, t: nat, u: nat, l: LockId)
    requires Inv(s) && t < |s.status| && u < |s.status|
    requires l in HeldBy(s, t) && l in HeldBy(s, u)
    ensures t == u
  {
    assert Has(s, t, l) && Has(s, u, l);
  }

  predicate RunsPrebuild(s: Pool, t: nat)
    requires WellFormed(s) && t < |s.status|
  {
    s.status[t].In? && s.status[t].mode.Running? && s.status[t].section == |s.programs[t]| - 1
  }

  /**
    In every run over the recipes of a build, two recipes that share a key never run their
    prebuild.sh at the same time.
   */
  lemma SharedKeyIsExclusive(recipes: seq<Recipe>, jobs: nat, run: Schedule, t: nat, u: nat, key: Key)
    requires forall r :: 0 <= r < |recipes| && recipes[r].prebuild.Some? ==> KeysSorted(recipes[r].prebuild.value)
    requires CanRun(Start(Programs(recipes), jobs), run)
    requires t < |recipes| && u < |recipes| && recipes[t].prebuild.Some? && recipes[u].prebuild.Some?
    requires key in recipes[t].prebuild.value && key in recipes[u].prebuild.value
    requires RunsPrebuild(Run(Start(Programs(recipes), jobs), run), t)
    requires RunsPrebuild(Run(Start(Programs(recipes), jobs), run), u)
    ensures t == u
  {
    var s := Run(Start(Programs(recipes), jobs), run);
    ProgramsDisciplined(recipes);
    StartKeeps(Programs(recipes), jobs);
    RunKeeps(Start(Programs(recipes), jobs), run);
    HoldsItsKeys(recipes, s, t, key);
    HoldsItsKeys(recipes, s, u, key);
    MutualExclusion(s, t, u, Keyed([SOURCE_CACHE] + key));
  }

  function Programs(recipes: seq<Recipe>): seq<Program> {
    seq(|recipes|, r requires 0 <= r < |recipes| => BuildSections(recipes[r]))
  }

  lemma ProgramsDisciplined(recipes: seq<Recipe>)
    requires forall r :: 0 <= r < |recipes| && recipes[r].prebuild.Some? ==> KeysSorted(recipes[r].prebuild.value)
    ensures forall t :: 0 <= t < |recipes| ==> Disciplined(Programs(recipes)[t])
  {
    forall t | 0 <= t < |recipes|
      ensures Disciplined(Programs(recipes)[t])
    {
      BuildIsDisciplined(recipes[t]);
    }
  }

  lemma HoldsItsKeys(recipes: seq<Recipe>, s: Pool, t: nat, key: Key)
    requires WellFormed(s) && s.programs == Programs(recipes) && t < |recipes|
    requires recipes[t].prebuild.Some? && KeysSorted(recipes[t].prebuild.value) && key in recipes[t].prebuild.value
    requires RunsPrebuild(s, t)
    ensures Keyed([SOURCE_CACHE] + key) in HeldBy(s, t)
  {
    var keys := recipes[t].prebuild.value;
    BuildIsDisciplined(recipes[t]);
    assert HeldBy(s, t) == CacheLocks(keys);
    var i :| 0 <= i < |keys| && keys[i] == key;
    assert CacheLocks(keys)[i] == Keyed([SOURCE_CACHE] + key);
  }

  // -------------------------------------------------------- deadlock freedom

  ghost function AllLocks(s: Pool): set<LockId> {
    set t, i, l | 0 <= t < |s.programs| && 0 <= i < |s.programs[t]| && l in s.programs[t][i] :: l
  }

  ghost function Above(s: Pool, l: LockId): set<LockId> {
    set x | x in AllLocks(s) && LockLess(l, x)
  }

  /** The build's next lock in its section is still to be taken. */
  predicate Climbing(s: Pool, t: nat)
    requires WellFormed(s) && t < |s.status|
  {
    var st := s.status[t];
    st.In? && st.mode.Acquiring? && st.held < |s.programs[t][st.section]|
  }

  function Wanted(s: Pool, t: nat): LockId
    requires WellFormed(s) && t < |s.status| && Climbing(s, t)
  {
    s.programs[t][s.status[t].section][s.status[t].held]
  }

  /** The wanted lock and all above it. */
  ghost function Ahead(s: Pool, t: nat): set<LockId>
    requires WellFormed(s) && t < |s.status|
  {
    if Climbing(s, t) then {Wanted(s, t)} + Above(s, Wanted(s, t)) else {}
  }

  /** The owner of a wanted lock wants, if anything, a lock above it. */
  lemma OwnerIsAhead(s: Pool, t: nat, v: nat)
    requires Inv(s) && t < |s.status| && Climbing(s, t)
    requires v < |s.status| && Wanted(s, t) in HeldBy(s, v)
    ensures Ahead(s, v) < Ahead(s, t)
  {
    var l := Wanted(s, t);
    if Climbing(s, v) {
      var m := Wanted(s, v);
      assert InOrder(s.programs[v][s.status[v].section]);
      assert LockLess(l, m);
      assert m in s.programs[v][s.status[v].section];
      forall x | x in Ahead(s, v)
        ensures x in Ahead(s, t) && x != l
      {
        LockOrder(l, m, x);
        LockOrder(m, l, m);
        LockOrder(l, l, l);
      }
    }
  }

  /** Following the owner of the wanted lock climbs the order, so it ends at a build that can move. */
  lemma {:induction false} FollowOwners(s: Pool, t: nat) returns (u: nat, a: Action)
    requires Inv(s) && t < |s.status| && s.status[t].In?
    ensures Enabled(s, u, a) && IsNextStep(a)
    decreases Ahead(s, t)
  {
    var st := s.status[t];
    if st.mode.Running? {
      u, a := t, Leave;
    } else if st.mode.Releasing? {
      u, a := t, if st.held > 0 then Release else Proceed;
    } else if st.held == |s.programs[t][st.section]| {
      u, a := t, Enter;
    } else if Wanted(s, t) !in s.owner {
      u, a := t, Acquire;
    } else {
      var v := s.owner[Wanted(s, t)];
      assert Has(s, v, Wanted(s, t));
      OwnerIsAhead(s, t, v);
      u, a := FollowOwners(s, v);
    }
  }

  /** While some build is unfinished and the pool has a worker, some build can take its next step. */
  lemma NeverDeadlocked(s: Pool) returns (u: nat, a: Action)
    requires Inv(s) && s.jobs > 0
    requires exists t :: 0 <= t < |s.status| && !s.status[t].Done?
    ensures Enabled(s, u, a) && IsNextStep(a)
  {
    if t :| 0 <= t < |s.status| && s.status[t].In? {
      u, a := FollowOwners(s, t);
    } else {
      var t :| 0 <= t < |s.status| && !s.status[t].Done?;
      NoneActive(s.status);
      u, a := t, Begin;
    }
  }

  lemma {:induction false} NoneActive(status: seq<Status>)
    requires forall t :: 0 <= t < |status| ==> !status[t].In?
    ensures ActiveCount(status) == 0
  {
    if status != [] {
      NoneActive(status[1..]);
    }
  }

  // ---------------------------------------------------------------- measure

  /** The steps of sections i, i + 1, ...: each lock is taken and released, and three more. */
  function SectionSteps(p: Program, i: nat): nat
    decreases |p| - i
  {
    if i < |p| then 2 * |p[i]| + 3 + SectionSteps(p, i + 1) else 0
  }

  /** The steps a build still has at most. */
  function StepsLeft(p: Program, st: Status): int {
    match st
    case Queued => SectionSteps(p, 0) + 1
    case Done => 0
    case In(i, held, mode) =>
      if i < |p| then
        match mode
        case Acquiring => SectionSteps(p, i) - held
        case Running => SectionSteps(p, i) - |p[i]| - 1
        case Releasing => SectionSteps(p, i + 1) + held + 1
      else 0
  }

  function AllStepsLeft(programs: seq<Program>, status: seq<Status>): int
    requires |programs| == |status|
  {
    if status == [] then 0 else StepsLeft(programs[0], status[0]) + AllStepsLeft(programs[1..], status[1..])
  }

  lemma {:induction false} AllStepsLeftUpdate(programs: seq<Program>, status: seq<Status>, t: nat, st: Status)
    requires |programs| == |status| && t < |status|
    ensures AllStepsLeft(programs, status[t := st]) ==
            AllStepsLeft(programs, status) - StepsLeft(programs[t], status[t]) + StepsLeft(programs[t], st)
  {
    if t > 0 {
      assert status[t := st][1..] == status[1..][t - 1 := st];
      AllStepsLeftUpdate(programs[1..], status[1..], t - 1, st);
    } else {
      assert status[t := st][1..] == status[1..];
    }
  }

  lemma {:induction false} AllStepsLeftNatural(s: Pool)
    requires WellFormed(s)
    ensures 0 <= AllStepsLeft(s.programs, s.status)
    decreases |s.status|
  {
    if s.status != [] {
      var r := Pool(s.programs[1..], s.jobs, s.status[1..], s.owner);
      assert forall t :: 0 <= t < |r.status| ==> r.status[t] == s.status[t + 1] && r.programs[t] == s.programs[t + 1];
      AllStepsLeftNatural(r);
    }
  }

  lemma StepDecreases(s: Pool, t: nat, a: Action)
    requires WellFormed(s) && Enabled(s, t, a)
    ensures AllStepsLeft(s.programs, Next(s, t, a).status) < AllStepsLeft(s.programs, s.status)
  {
    AllStepsLeftUpdate(s.programs, s.status, t, NextStatus(s, t, a));
  }

  lemma {:induction false} RunIsBounded(s: Pool, run: Schedule)
    requires WellFormed(s) && CanRun(s, run)
    ensures |run| <= AllStepsLeft(s.programs, s.status) - AllStepsLeft(s.programs, Run(s, run).status)
    decreases |run|
  {
    if run != [] {
      StepDecreases(s, run[0].0, run[0].1);
      RunIsBounded(Next(s, run[0].0, run[0].1), run[1..]);
    }
  }

  /**
    Whatever the recipes, the number of workers, the interleaving, and the builds that failed or
    were cancelled: a run in which no build can take its next step has finished every build and
    released every lock, and no run is longer than the steps its builds have.
   */
  lemma EveryBuildFinishes(recipes: seq<Recipe>, jobs: nat, run: Schedule)
    requires forall r :: 0 <= r < |recipes| && recipes[r].prebuild.Some? ==> KeysSorted(recipes[r].prebuild.value)
    requires jobs > 0 && CanRun(Start(Programs(recipes), jobs), run)
    ensures var s0 := Start(Programs(recipes), jobs);
            |run| <= AllStepsLeft(s0.programs, s0.status)
    ensures var s := Run(Start(Programs(recipes), jobs), run);
            (forall t, a :: IsNextStep(a) ==> !Enabled(s, t, a)) ==>
              (forall t :: 0 <= t < |recipes| ==> s.status[t].Done?) && s.owner == map[]
  {
    var s0 := Start(Programs(recipes), jobs);
    var s := Run(s0, run);
    ProgramsDisciplined(recipes);
    StartKeeps(Programs(recipes), jobs);
    RunKeeps(s0, run);
    RunIsBounded(s0, run);
    AllStepsLeftNatural(s);
    if forall t, a :: IsNextStep(a) ==> !Enabled(s, t, a) {
      if exists t :: 0 <= t < |s.status| && !s.status[t].Done? {
        var u, a := NeverDeadlocked(s);
        assert false;
      }
      assert forall l :: l in s.owner ==> Has(s, s.owner[l], l);
    }
  }
}
