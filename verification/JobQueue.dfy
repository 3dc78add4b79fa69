/**
  The worker pool of tools/job_queue.py.

  `LocalJobQueue` is the shared object; each of its methods is one critical section under
  the condition variable.  A run of the pool interleaves the critical sections of any number
  of workers, so the pool is a state machine whose steps are those sections together with the
  outcomes of `build_one`.  An item is identified by its id, and ids are distinct.
 */
module JobQueue {
  import opened Common

  /** One retry when an attempt raises outright. */
  const MAX_ATTEMPTS_PER_TARGET: nat := 2

  datatype Item = Item(id: string)

  /** What is recorded for an item: what `build_one` returned, or the note that every attempt raised. */
  datatype Outcome = Returned(result: string) | Crashed

  // ------------------------------------------------------------- the queue

  /** The four fields of the queue. */
  datatype Queue = Queue(pending: seq<Item>, inFlight: int, results: map<Item, Outcome>, attempts: map<Item, nat>)

  function Attempts(q: Queue, item: Item): nat {
    if item in q.attempts then q.attempts[item] else 0
  }

  datatype TakeReply = Got(item: Item) | Drained | MustWait

  /** What one pass through the loop of `take` decides. */
  function TakeDecision(q: Queue): TakeReply {
    if q.pending != [] then Got(q.pending[0])
    else if q.inFlight == 0 then Drained
    else MustWait
  }

  function AfterTake(q: Queue): Queue {
    if q.pending != [] then q.(pending := q.pending[1..], inFlight := q.inFlight + 1) else q
  }

  function AfterMarkRunning(q: Queue, item: Item): Queue {
    q.(attempts := q.attempts[item := Attempts(q, item) + 1])
  }

  function AfterRecord(q: Queue, item: Item, outcome: Outcome): Queue {
    q.(results := q.results[item := outcome], inFlight := q.inFlight - 1)
  }

  function AfterRequeue(q: Queue, item: Item): Queue {
    q.(pending := q.pending + [item], inFlight := q.inFlight - 1)
  }

  class LocalJobQueue {
    var pending: seq<Item>
    var inFlight: int
    var results: map<Item, Outcome>
    var attempts: map<Item, nat>

    function View(): Queue
      reads this
    {
      Queue(pending, inFlight, results, attempts)
    }

    constructor (items: seq<Item>)
      ensures View() == Queue(items, 0, map[], map[])
    {
      pending, inFlight, results, attempts := items, 0, map[], map[];
    }

    /** One pass through the loop of `take`; `MustWait` is the pass that goes back to waiting. */
    method Take() returns (reply: TakeReply)
      modifies this
      ensures reply == TakeDecision(old(View())) && View() == AfterTake(old(View()))
    {
      if pending != [] {
        reply := Got(pending[0]);
        pending := pending[1..];
        inFlight := inFlight + 1;
      } else if inFlight == 0 {
        reply := Drained;
      } else {
        reply := MustWait;
      }
    }

    method MarkRunning(item: Item)
      modifies this
      ensures View() == AfterMarkRunning(old(View()), item)
    {
      attempts := attempts[item := (if item in attempts then attempts[item] else 0) + 1];
    }

    method RecordResult(item: Item, outcome: Outcome)
      modifies this
      ensures View() == AfterRecord(old(View()), item, outcome)
    {
      results := results[item := outcome];
      inFlight := inFlight - 1;
    }

    method Requeue(item: Item)
      modifies this
      ensures View() == AfterRequeue(old(View()), item)
    {
      pending := pending + [item];
      inFlight := inFlight - 1;
    }
  }

  // -------------------------------------------------------- the worker pool

  /** Where a worker is in its loop. */
  datatype Phase =
    | Idle                                       // about to call take()
    | Taken(item: Item)                          // before mark_running()
    | Building(item: Item)                       // inside build_one()
    | Raised(item: Item)                         // in the handler, before attempts()
    | Requeueing(item: Item)                     // before requeue()
    | Finished(item: Item, outcome: Outcome)     // before record_result()
    | Reporting(item: Item, outcome: Outcome)    // before on_result()
    | Exited

  datatype Action = TakeNext | Mark | BuildReturns(result: string) | BuildRaises | CheckAttempts | PutBack
                  | Record | Report

  /**
    The pool.  `builds` lists how each completed call of `build_one` on an item ended (`None`
    when it raised) and `reported` lists the calls of `on_result`; both only observe the run.
   */
  datatype Pool = Pool(queue: Queue, workers: seq<Phase>, builds: map<Item, seq<Option<string>>>,
                       reported: seq<(Item, Outcome)>)

  function Builds(s: Pool, item: Item): seq<Option<string>> {
    if item in s.builds then s.builds[item] else []
  }

  /** run_parallel: max(jobs, 1) idle workers over all the items. */
  function Start(items: seq<Item>, jobs: int): Pool {
    Pool(Queue(items, 0, map[], map[]), seq(if jobs < 1 then 1 else jobs, _ => Idle), map[], [])
  }

  predicate Enabled(s: Pool, w: nat, a: Action) {
    w < |s.workers| &&
    match a
    case TakeNext => s.workers[w].Idle?
    case Mark => s.workers[w].Taken?
    case BuildReturns(_) => s.workers[w].Building?
    case BuildRaises => s.workers[w].Building?
    case CheckAttempts => s.workers[w].Raised?
    case PutBack => s.workers[w].Requeueing?
    case Record => s.workers[w].Finished?
    case Report => s.workers[w].Reporting?
  }

  function Next(s: Pool, w: nat, a: Action): Pool
    requires Enabled(s, w, a)
  {
    var p := s.workers[w];
    match a
    case TakeNext =>
      (match TakeDecision(s.queue)
       case Got(item) => s.(queue := AfterTake(s.queue), workers := s.workers[w := Taken(item)])
       case Drained => s.(workers := s.workers[w := Exited])
       case MustWait => s)
    case Mark => s.(queue := AfterMarkRunning(s.queue, p.item), workers := s.workers[w := Building(p.item)])
    case BuildReturns(result) =>
      s.(workers := s.workers[w := Finished(p.item, Returned(result))],
         builds := s.builds[p.item := Builds(s, p.item) + [Some(result)]])
    case BuildRaises =>
      s.(workers := s.workers[w := Raised(p.item)],
         builds := s.builds[p.item := Builds(s, p.item) + [None]])
    case CheckAttempts =>
      if Attempts(s.queue, p.item) < MAX_ATTEMPTS_PER_TARGET then s.(workers := s.workers[w := Requeueing(p.item)])
      else s.(workers := s.workers[w := Finished(p.item, Crashed)])
    case PutBack => s.(queue := AfterRequeue(s.queue, p.item), workers := s.workers[w := Idle])
    case Record =>
      s.(queue := AfterRecord(s.queue, p.item, p.outcome), workers := s.workers[w := Reporting(p.item, p.outcome)])
    case Report => s.(workers := s.workers[w := Idle], reported := s.reported + [(p.item, p.outcome)])
  }

  /** Every action but a pass of `take` that only waits. */
  predicate Productive(s: Pool, w: nat, a: Action) {
    Enabled(s, w, a) && !(a.TakeNext? && TakeDecision(s.queue).MustWait?)
  }

  /** A run: which worker acts, and how. */
  type Schedule = seq<(nat, Action)>

  predicate CanRun(s: Pool, run: Schedule)
    decreases |run|
  {
    run == [] || (Enabled(s, run[0].0, run[0].1) && CanRun(Next(s, run[0].0, run[0].1), run[1..]))
  }

  function Run(s: Pool, run: Schedule): Pool
    requires CanRun(s, run)
    decreases |run|
  {
    if run == [] then s else Run(Next(s, run[0].0, run[0].1), run[1..])
  }

  /** How many actions of a run did more than wait. */
  function Effort(s: Pool, run: Schedule): nat
    requires CanRun(s, run)
    decreases |run|
  {
    if run == [] then 0
    else (if Productive(s, run[0].0, run[0].1) then 1 else 0) + Effort(Next(s, run[0].0, run[0].1), run[1..])
  }

  // ------------------------------------------------------------- invariant

  /** The phases in which a worker has an item that is neither pending nor recorded. */
  predicate Holds(p: Phase) {
    p.Taken? || p.Building? || p.Raised? || p.Requeueing? || p.Finished?
  }

  function HeldCount(ws: seq<Phase>): nat {
    if ws == [] then 0 else (if Holds(ws[0]) then 1 else 0) + HeldCount(ws[1..])
  }

  predicate IsHeld(s: Pool, item: Item) {
    exists w :: 0 <= w < |s.workers| && Holds(s.workers[w]) && s.workers[w].item == item
  }

  /** The items are the disjoint union of the pending, the held and the recorded ones. */
  ghost predicate Partition(items: seq<Item>, s: Pool) {
    && (forall x :: x in items <==> x in s.queue.pending || IsHeld(s, x) || x in s.queue.results)
    && Apart(s)
    && s.queue.inFlight == HeldCount(s.workers)
  }

  /** No item is in two places, or twice in one. */
  ghost predicate Apart(s: Pool) {
    && Distinct(s.queue.pending)
    && (forall x :: x in s.queue.pending ==> x !in s.queue.results)
    && (forall w :: 0 <= w < |s.workers| && Holds(s.workers[w]) ==>
          s.workers[w].item !in s.queue.pending && s.workers[w].item !in s.queue.results)
    && (forall v, w :: 0 <= v < w < |s.workers| && Holds(s.workers[v]) && Holds(s.workers[w]) ==>
          s.workers[v].item != s.workers[w].item)
  }

  /** Every completed build so far raised, and there were at most `limit` of them. */
  predicate OnlyRaised(s: Pool, item: Item, limit: nat) {
    |Builds(s, item)| <= limit && forall i :: 0 <= i < |Builds(s, item)| ==> Builds(s, item)[i].None?
  }

  /** A recorded outcome tells what happened: the first build that returned, or two that raised. */
  predicate Explains(s: Pool, item: Item, outcome: Outcome) {
    var b := Builds(s, item);
    && Attempts(s.queue, item) == |b|
    && match outcome
       case Returned(result) => b == [Some(result)] || b == [None, Some(result)]
       case Crashed => b == [None, None]
  }

  predicate Waiting(s: Pool, item: Item) {
    Attempts(s.queue, item) == |Builds(s, item)| && OnlyRaised(s, item, 1)
  }

  predicate PhaseCounts(s: Pool, p: Phase) {
    match p
    case Idle => true
    case Exited => true
    case Taken(x) => Waiting(s, x)
    case Building(x) => Attempts(s.queue, x) == |Builds(s, x)| + 1 && OnlyRaised(s, x, 1)
    case Raised(x) => 1 <= Attempts(s.queue, x) == |Builds(s, x)| && OnlyRaised(s, x, 2)
    case Requeueing(x) => Waiting(s, x) && Attempts(s.queue, x) == 1
    case Finished(x, o) => Explains(s, x, o)
    case Reporting(x, o) => x in s.queue.results && s.queue.results[x] == o
  }

  ghost predicate Counts(s: Pool) {
    && (forall x :: x in s.queue.pending ==> Waiting(s, x))
    && (forall w :: 0 <= w < |s.workers| ==> PhaseCounts(s, s.workers[w]))
    && (forall x :: x in s.queue.results ==> Explains(s, x, s.queue.results[x]))
  }

  predicate IsReporting(s: Pool, item: Item) {
    exists w :: 0 <= w < |s.workers| && s.workers[w].Reporting? && s.workers[w].item == item
  }

  predicate IsReported(s: Pool, item: Item) {
    exists i :: 0 <= i < |s.reported| && s.reported[i].0 == item
  }

  /** The calls of `on_result` so far: at most one an item, with its recorded result. */
  ghost predicate ReportedOnce(s: Pool) {
    && (forall i :: 0 <= i < |s.reported| ==>
          s.reported[i].0 in s.queue.results && s.queue.results[s.reported[i].0] == s.reported[i].1)
    && (forall i, j :: 0 <= i < j < |s.reported| ==> s.reported[i].0 != s.reported[j].0)
  }

  /** The calls of `on_result` to come: each recorded item is reported, or will be by exactly one worker. */
  ghost predicate ReportsToCome(s: Pool) {
    && (forall x :: x in s.queue.results ==> IsReported(s, x) || IsReporting(s, x))
    && (forall w :: 0 <= w < |s.workers| && s.workers[w].Reporting? ==> !IsReported(s, s.workers[w].item))
    && (forall v, w :: 0 <= v < w < |s.workers| && s.workers[v].Reporting? && s.workers[w].Reporting? ==>
          s.workers[v].item != s.workers[w].item)
  }

  ghost predicate Callbacks(s: Pool) {
    ReportedOnce(s) && ReportsToCome(s)
  }

  predicate NothingLeft(s: Pool) {
    s.queue.pending == [] && s.queue.inFlight == 0
  }

  /** A worker exits only once the queue is drained for good. */
  predicate ExitsLate(s: Pool) {
    forall w :: 0 <= w < |s.workers| && s.workers[w].Exited? ==> NothingLeft(s)
  }

  ghost predicate Inv(items: seq<Item>, s: Pool) {
    Partition(items, s) && Counts(s) && Callbacks(s) && ExitsLate(s)
  }

  // ----------------------------------------------------- counting held items

  lemma {:induction false} HeldCountUpdate(ws: seq<Phase>, w: nat, p: Phase)
    requires w < |ws|
    ensures HeldCount(ws[w := p]) == HeldCount(ws) - (if Holds(ws[w]) then 1 else 0) + (if Holds(p) then 1 else 0)
  {
    if w > 0 {
      assert ws[w := p][1..] == ws[1..][w - 1 := p];
      HeldCountUpdate(ws[1..], w - 1, p);
    } else {
      assert ws[w := p][1..] == ws[1..];
    }
  }

  lemma {:induction false} HeldCountZero(ws: seq<Phase>)
    ensures HeldCount(ws) == 0 <==> forall w :: 0 <= w < |ws| ==> !Holds(ws[w])
  {
    if ws != [] {
      HeldCountZero(ws[1..]);
      assert forall w :: 1 <= w < |ws| ==> ws[w] == ws[1..][w - 1];
    }
  }

  // ---------------------------------------------- every step keeps the invariant

  lemma StartKeeps(items: seq<Item>, jobs: int)
    requires Distinct(items)
    ensures Inv(items, Start(items, jobs))
  {
    HeldCountZero(Start(items, jobs).workers);
  }

  lemma StaysApart(s: Pool, w: nat, a: Action)
    requires Apart(s) && Enabled(s, w, a)
    ensures Apart(Next(s, w, a))
  {
    var q, q' := s.queue, Next(s, w, a).queue;
    if a.TakeNext? && q.pending != [] {
      assert q.pending == [q.pending[0]] + q'.pending;
    } else if a.PutBack? {
      var item := s.workers[w].item;
      assert item !in q.pending && item !in q.results && q'.pending == q.pending + [item];
    } else {
      assert q'.pending == q.pending;
    }
  }

  /** A worker that keeps its item, or has none before and after, changes no other item's place. */
  lemma StepPartition(items: seq<Item>, s: Pool, w: nat, a: Action)
    requires Partition(items, s) && Enabled(s, w, a)
    ensures Partition(items, Next(s, w, a))
  {
    var s' := Next(s, w, a);
    StaysApart(s, w, a);
    HeldCountUpdate(s.workers, w, s'.workers[w]);
    assert s.workers[w := s'.workers[w]] == s'.workers;
    forall x
      ensures x in items <==> x in s'.queue.pending || IsHeld(s', x) || x in s'.queue.results
    {
      PlaceAfter(items, s, w, a, x);
    }
  }

  lemma PlaceAfter(items: seq<Item>, s: Pool, w: nat, a: Action, x: Item)
    requires Partition(items, s) && Enabled(s, w, a)
    ensures var s' := Next(s, w, a);
            x in items <==> x in s'.queue.pending || IsHeld(s', x) || x in s'.queue.results
  {
    HeldAfter(s, w, a, x);
    assert IsHeld(s, x) <==>
           (Holds(s.workers[w]) && s.workers[w].item == x)
           || (exists v :: 0 <= v < |s.workers| && v != w && Holds(s.workers[v]) && s.workers[v].item == x);
    assert a.TakeNext? && s.queue.pending != [] ==> s.queue.pending == [s.queue.pending[0]] + s.queue.pending[1..];
  }

  /** Who holds an item after a step. */
  lemma HeldAfter(s: Pool, w: nat, a: Action, x: Item)
    requires Enabled(s, w, a)
    ensures var p := Next(s, w, a).workers[w];
            IsHeld(Next(s, w, a), x) <==>
              (Holds(p) && p.item == x)
              || (exists v :: 0 <= v < |s.workers| && v != w && Holds(s.workers[v]) && s.workers[v].item == x)
  {
    var s' := Next(s, w, a);
    assert forall v :: 0 <= v < |s.workers| && v != w ==> s'.workers[v] == s.workers[v];
  }

  /** A step changes the counters of no item but the one its worker holds. */
  lemma OtherItems(s: Pool, w: nat, a: Action, x: Item)
    requires Enabled(s, w, a)
    requires s.workers[w].Idle? || s.workers[w].item != x
    ensures Attempts(Next(s, w, a).queue, x) == Attempts(s.queue, x)
    ensures Builds(Next(s, w, a), x) == Builds(s, x)
    ensures x in Next(s, w, a).queue.results <==> x in s.queue.results
    ensures x in s.queue.results ==> Next(s, w, a).queue.results[x] == s.queue.results[x]
  {}

  /** The counters of the acting worker's own item fit its new phase, or its new place. */
  lemma OwnItem(items: seq<Item>, s: Pool, w: nat, a: Action)
    requires Partition(items, s) && Counts(s) && Enabled(s, w, a)
    ensures PhaseCounts(Next(s, w, a), Next(s, w, a).workers[w])
    ensures a.PutBack? ==> Waiting(Next(s, w, a), s.workers[w].item)
    ensures a.Record? ==> Explains(Next(s, w, a), s.workers[w].item, s.workers[w].outcome)
    ensures a.Report? ==> Explains(Next(s, w, a), s.workers[w].item, s.workers[w].outcome)
  {
    assert PhaseCounts(s, s.workers[w]);
    if a.TakeNext? && s.queue.pending != [] {
      assert s.queue.pending[0] in s.queue.pending;
    }
  }

  lemma StepWaiting(items: seq<Item>, s: Pool, w: nat, a: Action, x: Item)
    requires Partition(items, s) && Counts(s) && Enabled(s, w, a) && x in Next(s, w, a).queue.pending
    ensures Waiting(Next(s, w, a), x)
  {
    var p := s.workers[w];
    if a.PutBack? && x == p.item {
      OwnItem(items, s, w, a);
    } else {
      assert x in s.queue.pending;
      assert PhaseCounts(s, p);
      OtherItems(s, w, a, x);
    }
  }

  lemma StepExplains(items: seq<Item>, s: Pool, w: nat, a: Action, x: Item)
    requires Partition(items, s) && Counts(s) && Enabled(s, w, a) && x in Next(s, w, a).queue.results
    ensures Explains(Next(s, w, a), x, Next(s, w, a).queue.results[x])
  {
    if s.workers[w].Idle? || x != s.workers[w].item {
      OtherItems(s, w, a, x);
    } else {
      OwnItem(items, s, w, a);
    }
  }

  /** The counters of the other workers' items still fit; only two reporting workers can name one item. */
  lemma OtherWorker(items: seq<Item>, s: Pool, w: nat, a: Action, v: nat)
    requires Partition(items, s) && Counts(s) && Enabled(s, w, a) && v < |s.workers| && v != w
    ensures PhaseCounts(Next(s, w, a), s.workers[v])
  {
    var u, p := s.workers[v], s.workers[w];
    assert PhaseCounts(s, u) && PhaseCounts(s, p);
    if !u.Idle? && !u.Exited? {
      if p.Idle? || u.item != p.item {
        OtherItems(s, w, a, u.item);
      } else {
        assert u.Reporting? && p.Reporting?;
      }
    }
  }

  lemma StepCounts(items: seq<Item>, s: Pool, w: nat, a: Action)
    requires Partition(items, s) && Counts(s) && Enabled(s, w, a)
    ensures Counts(Next(s, w, a))
  {
    var s' := Next(s, w, a);
    forall x | x in s'.queue.pending
      ensures Waiting(s', x)
    {
      StepWaiting(items, s, w, a, x);
    }
    forall x | x in s'.queue.results
      ensures Explains(s', x, s'.queue.results[x])
    {
      StepExplains(items, s, w, a, x);
    }
    forall v | 0 <= v < |s'.workers|
      ensures PhaseCounts(s', s'.workers[v])
    {
      if v == w {
        OwnItem(items, s, w, a);
      } else {
        OtherWorker(items, s, w, a, v);
        assert s'.workers[v] == s.workers[v];
      }
    }
  }

  /** Which items have been, or are being, reported after a step. */
  lemma ReportedAfter(s: Pool, w: nat, a: Action, x: Item)
    requires Enabled(s, w, a)
    requires IsReported(s, x) || IsReporting(s, x) || (a.Record? && s.workers[w].item == x)
    ensures IsReported(Next(s, w, a), x) || IsReporting(Next(s, w, a), x)
  {
    var s' := Next(s, w, a);
    if IsReported(s, x) {
      var i :| 0 <= i < |s.reported| && s.reported[i].0 == x;
      assert s'.reported[i] == s.reported[i];
    } else if IsReporting(s, x) {
      var v :| 0 <= v < |s.workers| && s.workers[v].Reporting? && s.workers[v].item == x;
      if v == w {
        assert s'.reported[|s.reported|].0 == x;
      } else {
        assert s'.workers[v] == s.workers[v];
      }
    } else {
      assert s'.workers[w].Reporting?;
    }
  }

  lemma NotReportedAfter(s: Pool, w: nat, a: Action, x: Item)
    requires Enabled(s, w, a) && !IsReported(s, x) && !(a.Report? && s.workers[w].item == x)
    ensures !IsReported(Next(s, w, a), x)
  {
    var s' := Next(s, w, a);
    assert forall i :: 0 <= i < |s.reported| ==> s'.reported[i] == s.reported[i];
  }

  /** What a recording worker is about to record is neither reported nor being reported. */
  lemma FreshRecord(items: seq<Item>, s: Pool, w: nat)
    requires Partition(items, s) && Counts(s) && Callbacks(s) && Enabled(s, w, Record)
    ensures !IsReported(s, s.workers[w].item) && !IsReporting(s, s.workers[w].item)
  {
    assert s.workers[w].item !in s.queue.results;
    assert forall v :: 0 <= v < |s.workers| ==> PhaseCounts(s, s.workers[v]);
  }

  lemma StepReportedOnce(items: seq<Item>, s: Pool, w: nat, a: Action)
    requires Partition(items, s) && Counts(s) && Callbacks(s) && Enabled(s, w, a)
    ensures ReportedOnce(Next(s, w, a))
  {
    assert PhaseCounts(s, s.workers[w]);
    if a.Record? {
      FreshRecord(items, s, w);
    }
  }

  lemma StepReportsToCome(s: Pool, w: nat, a: Action)
    requires ReportsToCome(s) && Enabled(s, w, a)
    requires a.Record? ==> !IsReported(s, s.workers[w].item) && !IsReporting(s, s.workers[w].item)
    ensures ReportsToCome(Next(s, w, a))
  {
    var s' := Next(s, w, a);
    forall x | x in s'.queue.results
      ensures IsReported(s', x) || IsReporting(s', x)
    {
      ReportedAfter(s, w, a, x);
    }
    forall v | 0 <= v < |s'.workers| && s'.workers[v].Reporting?
      ensures !IsReported(s', s'.workers[v].item)
    {
      NotReportedAfter(s, w, a, s'.workers[v].item);
    }
  }

  /** "Nothing pending and nothing in flight" is stable once reached. */
  lemma DrainedIsStable(items: seq<Item>, s: Pool, w: nat, a: Action)
    requires Partition(items, s) && NothingLeft(s) && Enabled(s, w, a)
    ensures NothingLeft(Next(s, w, a))
  {
    HeldCountZero(s.workers);
  }

  lemma StepKeeps(items: seq<Item>, s: Pool, w: nat, a: Action)
    requires Inv(items, s) && Enabled(s, w, a)
    ensures Inv(items, Next(s, w, a))
  {
    StepPartition(items, s, w, a);
    StepCounts(items, s, w, a);
    StepReportedOnce(items, s, w, a);
    if a.Record? {
      FreshRecord(items, s, w);
    }
    StepReportsToCome(s, w, a);
    if NothingLeft(s) {
      DrainedIsStable(items, s, w, a);
    }
  }

  lemma {:induction false} RunKeeps(items: seq<Item>, s: Pool, run: Schedule)
    requires Inv(items, s) && CanRun(s, run)
    ensures Inv(items, Run(s, run))
    decreases |run|
  {
    if run != [] {
      StepKeeps(items, s, run[0].0, run[0].1);
      RunKeeps(items, Next(s, run[0].0, run[0].1), run[1..]);
    }
  }

  // ------------------------------------------------------------ main results

  /**
    When every worker has exited, every item has exactly one recorded result, was attempted
    once or twice, carries what its last build returned or is marked as crashed because two
    builds raised, and was handed to `on_result` exactly once with that result.
   */
  lemma CompletedRun(items: seq<Item>, jobs: int, run: Schedule)
    requires Distinct(items) && CanRun(Start(items, jobs), run)
    requires forall w :: 0 <= w < |Run(Start(items, jobs), run).workers| ==>
             Run(Start(items, jobs), run).workers[w].Exited?
    ensures var s := Run(Start(items, jobs), run);
            && s.queue.results.Keys == Elements(items)
            && (forall x :: x in items ==> 1 <= Attempts(s.queue, x) <= MAX_ATTEMPTS_PER_TARGET)
            && (forall x :: x in items ==> Explains(s, x, s.queue.results[x]))
            && Elements(s.reported) == s.queue.results.Items && Distinct(s.reported)
  {
    StartKeeps(items, jobs);
    RunKeeps(items, Start(items, jobs), run);
    WorkersStay(Start(items, jobs), run);
    AllExited(items, Run(Start(items, jobs), run));
  }

  lemma AllExited(items: seq<Item>, s: Pool)
    requires Inv(items, s) && s.workers != []
    requires forall w :: 0 <= w < |s.workers| ==> s.workers[w].Exited?
    ensures s.queue.results.Keys == Elements(items)
    ensures forall x :: x in items ==> x in s.queue.results && Explains(s, x, s.queue.results[x])
    ensures Elements(s.reported) == s.queue.results.Items && Distinct(s.reported)
  {
    assert s.workers[0].Exited?;
    forall x
      ensures x in items <==> x in s.queue.results
    {
      assert !IsHeld(s, x);
    }
    forall e | e in s.queue.results.Items
      ensures e in Elements(s.reported)
    {
      assert !IsReporting(s, e.0) && IsReported(s, e.0);
      var i :| 0 <= i < |s.reported| && s.reported[i].0 == e.0;
      assert s.reported[i] == e;
    }
  }

  lemma {:induction false} WorkersStay(s: Pool, run: Schedule)
    requires CanRun(s, run)
    ensures |Run(s, run).workers| == |s.workers|
    decreases |run|
  {
    if run != [] {
      WorkersStay(Next(s, run[0].0, run[0].1), run[1..]);
    }
  }

  /** No reachable state has every live worker waiting: while a worker lives, some worker can do real work. */
  lemma NeverWedged(items: seq<Item>, s: Pool) returns (w: nat, a: Action)
    requires Inv(items, s)
    requires exists v :: 0 <= v < |s.workers| && !s.workers[v].Exited?
    ensures Productive(s, w, a)
  {
    if v :| 0 <= v < |s.workers| && !s.workers[v].Exited? && !s.workers[v].Idle? {
      w := v;
      match s.workers[v]
      case Taken(_) => a := Mark;
      case Building(_) => a := BuildRaises;
      case Raised(_) => a := CheckAttempts;
      case Requeueing(_) => a := PutBack;
      case Finished(_, _) => a := Record;
      case Reporting(_, _) => a := Report;
    } else {
      var v :| 0 <= v < |s.workers| && !s.workers[v].Exited?;
      HeldCountZero(s.workers);
      w, a := v, TakeNext;
    }
  }

  /**
    A run in which nobody can do more than wait is over: every worker has exited, every item has
    its result, and each result was reported once.
   */
  lemma StuckRunIsComplete(items: seq<Item>, jobs: int, run: Schedule)
    requires Distinct(items) && CanRun(Start(items, jobs), run)
    requires forall w, a :: !Productive(Run(Start(items, jobs), run), w, a)
    ensures var s := Run(Start(items, jobs), run);
            && (forall w :: 0 <= w < |s.workers| ==> s.workers[w].Exited?)
            && s.queue.results.Keys == Elements(items)
            && (forall x :: x in items ==> Explains(s, x, s.queue.results[x]))
            && Elements(s.reported) == s.queue.results.Items && Distinct(s.reported)
  {
    var s := Run(Start(items, jobs), run);
    StartKeeps(items, jobs);
    RunKeeps(items, Start(items, jobs), run);
    if exists v :: 0 <= v < |s.workers| && !s.workers[v].Exited? {
      var w, a := NeverWedged(items, s);
      assert false;
    }
    CompletedRun(items, jobs, run);
  }

  // ---------------------------------------------------------------- measure

  /** Work left in a phase, in steps, not counting attempts that have not begun. */
  function PhaseWork(p: Phase): nat {
    match p
    case Exited => 0
    case Idle => 1
    case Taken(_) => 2
    case Reporting(_, _) => 2
    case Finished(_, _) => 3
    case Requeueing(_) => 4
    case Raised(_) => 5
    case Building(_) => 6
  }

  function WorkersWork(ws: seq<Phase>): nat {
    if ws == [] then 0 else PhaseWork(ws[0]) + WorkersWork(ws[1..])
  }

  lemma {:induction false} WorkersWorkUpdate(ws: seq<Phase>, w: nat, p: Phase)
    requires w < |ws|
    ensures WorkersWork(ws[w := p]) == WorkersWork(ws) - PhaseWork(ws[w]) + PhaseWork(p)
  {
    if w > 0 {
      assert ws[w := p][1..] == ws[1..][w - 1 := p];
      WorkersWorkUpdate(ws[1..], w - 1, p);
    } else {
      assert ws[w := p][1..] == ws[1..];
    }
  }

  /** How many attempts the items may still be given. */
  function AttemptsLeft(items: seq<Item>, q: Queue): int {
    if items == [] then 0 else MAX_ATTEMPTS_PER_TARGET - Attempts(q, items[0]) + AttemptsLeft(items[1..], q)
  }

  lemma {:induction false} AttemptsLeftFrame(items: seq<Item>, q: Queue, q': Queue)
    requires forall x :: x in items ==> Attempts(q', x) == Attempts(q, x)
    ensures AttemptsLeft(items, q') == AttemptsLeft(items, q)
  {
    if items != [] {
      AttemptsLeftFrame(items[1..], q, q');
    }
  }

  lemma {:induction false} AttemptsLeftMark(items: seq<Item>, q: Queue, x: Item)
    requires Distinct(items) && x in items
    ensures AttemptsLeft(items, AfterMarkRunning(q, x)) == AttemptsLeft(items, q) - 1
  {
    if items[0] == x {
      AttemptsLeftFrame(items[1..], q, AfterMarkRunning(q, x));
    } else {
      AttemptsLeftMark(items[1..], q, x);
    }
  }

  lemma {:induction false} AttemptsLeftBound(items: seq<Item>, s: Pool)
    requires forall x :: x in items ==> Attempts(s.queue, x) <= MAX_ATTEMPTS_PER_TARGET
    ensures 0 <= AttemptsLeft(items, s.queue)
  {
    if items != [] {
      AttemptsLeftBound(items[1..], s);
    }
  }

  function Measure(items: seq<Item>, s: Pool): int {
    5 * AttemptsLeft(items, s.queue) + 2 * |s.queue.pending| + WorkersWork(s.workers)
  }

  lemma MeasureIsNatural(items: seq<Item>, s: Pool)
    requires Inv(items, s)
    ensures 0 <= Measure(items, s)
  {
    forall x | x in items
      ensures Attempts(s.queue, x) <= MAX_ATTEMPTS_PER_TARGET
    {
      if IsHeld(s, x) {
        var w :| 0 <= w < |s.workers| && Holds(s.workers[w]) && s.workers[w].item == x;
        assert PhaseCounts(s, s.workers[w]);
      }
    }
    AttemptsLeftBound(items, s);
  }

  /** Every action that does more than wait brings the run closer to its end. */
  lemma StepDecreases(items: seq<Item>, s: Pool, w: nat, a: Action)
    requires Distinct(items) && Partition(items, s) && Enabled(s, w, a)
    ensures Measure(items, Next(s, w, a)) <= Measure(items, s) - (if Productive(s, w, a) then 1 else 0)
  {
    var s' := Next(s, w, a);
    WorkersWorkUpdate(s.workers, w, s'.workers[w]);
    assert s.workers[w := s'.workers[w]] == s'.workers;
    if a.Mark? {
      assert IsHeld(s, s.workers[w].item);
      AttemptsLeftMark(items, s.queue, s.workers[w].item);
    } else {
      AttemptsLeftFrame(items, s.queue, s'.queue);
    }
  }

  /** A run of n items on k workers does at most 12 n + k steps that are not waiting, in any order of steps. */
  lemma RunsAreBounded(items: seq<Item>, jobs: int, run: Schedule)
    requires Distinct(items) && CanRun(Start(items, jobs), run)
    ensures Effort(Start(items, jobs), run) <= 12 * |items| + |Start(items, jobs).workers|
  {
    var s := Start(items, jobs);
    StartKeeps(items, jobs);
    EffortIsBounded(items, s, run);
    StartMeasure(items, s);
    IdleWork(s.workers);
  }

  lemma {:induction false} EffortIsBounded(items: seq<Item>, s: Pool, run: Schedule)
    requires Distinct(items) && Inv(items, s) && CanRun(s, run)
    ensures Effort(s, run) <= Measure(items, s)
    decreases |run|
  {
    if run == [] {
      MeasureIsNatural(items, s);
    } else {
      StepKeeps(items, s, run[0].0, run[0].1);
      StepDecreases(items, s, run[0].0, run[0].1);
      EffortIsBounded(items, Next(s, run[0].0, run[0].1), run[1..]);
    }
  }

  lemma {:induction false} StartMeasure(items: seq<Item>, s: Pool)
    requires s.queue.attempts == map[]
    ensures AttemptsLeft(items, s.queue) == 2 * |items|
  {
    if items != [] {
      StartMeasure(items[1..], s);
    }
  }

  lemma {:induction false} IdleWork(ws: seq<Phase>)
    requires forall w :: 0 <= w < |ws| ==> ws[w].Idle?
    ensures WorkersWork(ws) == |ws|
  {
    if ws != [] {
      IdleWork(ws[1..]);
    }
  }
}
