/**
  The public build status (tools/build_status.py): for each catalogued bundle and each base, a
  state, the date it has lasted since, and the last few outcomes.

  The specification keeps the whole log of outcomes, without bound; the file must agree with it
  although it forgets all but ten of them.
 */
module BuildStatus {
  import opened Common

  const HISTORY_LIMIT: nat := 10

  const INTERRUPTED_ERROR: string := "the previous run was interrupted before this entry finished testing"

  datatype State = Queued | Testing | Success | Failed | Skipped

  datatype HistoryEntry = HistoryEntry(date: string, state: State, engine: Option<string>, suite: Option<string>,
                                       duration: Option<string>, stage: Option<string>, error: Option<string>)

  datatype Record = Record(state: State, date: string, since: Option<string>, engine: Option<string>,
                           suite: Option<string>, size: Option<string>, checksum: Option<string>,
                           bootPassed: Option<bool>, error: Option<string>, history: seq<HistoryEntry>)

  /** What a finished build reports; `summary` is the sanitized error line it would be published with. */
  datatype BuildResult = BuildResult(status: string, start: string, end: string, engine: Option<string>,
                                     suite: Option<string>, duration: Option<string>, stage: Option<string>,
                                     size: Option<string>, checksum: Option<string>, smoke: string,
                                     summary: Option<string>)

  type Entries = map<string, map<string, Record>>

  datatype Status = Status(generatedAt: string, entries: Entries)

  function GetRecord(entries: Entries, id: string, base: string): Option<Record> {
    if id in entries && base in entries[id] then Some(entries[id][base]) else None
  }

  function SetRecord(entries: Entries, id: string, base: string, r: Record): Entries {
    entries[id := (if id in entries then entries[id] else map[])[base := r]]
  }

  function MapState(status: string): State {
    if status == "success" then Success else if status == "skipped" then Skipped else Failed
  }

  // ------------------------------------------------------------- operations

  /** The live states move; `since` and `history` keep describing the last outcome. */
  function MarkLive(s: Status, id: string, base: string, live: State, now: string): (Status, bool) {
    var existing := GetRecord(s.entries, id, base);
    var blank := Record(live, now, None, None, None, None, None, None, None, []);
    var r := match existing
             case None => blank
             case Some(prior) => prior.(state := live, date := now);
    var r' := if r.since.None? then r.(since := Some(now)) else r;
    (Status(now, SetRecord(s.entries, id, base, r')), existing.None? || existing.value.state != live)
  }

  function MarkQueued(s: Status, id: string, base: string, now: string): (Status, bool) {
    MarkLive(s, id, base, Queued, now)
  }

  function MarkTesting(s: Status, id: string, base: string, now: string): (Status, bool) {
    MarkLive(s, id, base, Testing, now)
  }

  function LastEntries(history: seq<HistoryEntry>): seq<HistoryEntry> {
    if |history| <= HISTORY_LIMIT then history else history[|history| - HISTORY_LIMIT..]
  }

  function ResultDate(result: BuildResult, now: string): string {
    if result.end != "" then result.end else if result.start != "" then result.start else now
  }

  /** The history entry of a finished build. */
  function OutcomeEntry(result: BuildResult, now: string): HistoryEntry {
    var state := MapState(result.status);
    HistoryEntry(ResultDate(result, now), state, result.engine, result.suite, result.duration, result.stage,
                 if state.Success? then None else result.summary)
  }

  function ApplyResult(s: Status, id: string, base: string, result: BuildResult, now: string): (Status, bool) {
    var previous := GetRecord(s.entries, id, base);
    var entry := OutcomeEntry(result, now);
    var history := if previous.Some? then previous.value.history else [];
    var confirms := history != [] && Last(history).state == entry.state;
    var since := if confirms && previous.value.since.Some? && previous.value.since.value != ""
                 then previous.value.since else Some(entry.date);
    var boot := if result.smoke == "passed" then Some(true) else if result.smoke == "failed" then Some(false) else None;
    var r := Record(entry.state, entry.date, since, result.engine, result.suite, result.size, result.checksum, boot,
                    entry.error, LastEntries(history + [entry]));
    (Status(now, SetRecord(s.entries, id, base, r)), !confirms)
  }

  function InterruptedEntry(r: Record, now: string): HistoryEntry {
    HistoryEntry(now, Failed, r.engine, r.suite, None, None, Some(INTERRUPTED_ERROR))
  }

  function Interrupt(r: Record, now: string): Record {
    r.(state := Failed, date := now, since := Some(now), error := Some(INTERRUPTED_ERROR),
       history := LastEntries(r.history + [InterruptedEntry(r, now)]))
  }

  /** The clock is read once for each record that is touched, and once for the file. */
  type Clock = (string, string) -> string

  function StuckPairs(entries: Entries): set<(string, string)> {
    set id, base | id in entries && base in entries[id] && entries[id][base].state.Testing? :: (id, base)
  }

  function ResolveStuckTesting(s: Status, clock: Clock, now: string): (Status, set<(string, string)>) {
    var touched := StuckPairs(s.entries);
    var entries := map id | id in s.entries ::
                     map base | base in s.entries[id] ::
                       if s.entries[id][base].state.Testing? then Interrupt(s.entries[id][base], clock(id, base))
                       else s.entries[id][base];
    (if touched == {} then s else Status(now, entries), touched)
  }

  /** The file on disk; one that is missing or cannot be parsed starts over. */
  datatype File = Missing | Unreadable | Saved(status: Status)

  function Load(f: File, now: string): Status {
    if f.Saved? then f.status else Status(now, map[])
  }

  // ------------------------------------------------------------------- runs

  datatype Step =
    | QueueStep(id: string, base: string, now: string)
    | StartStep(id: string, base: string, now: string)
    | RecordStep(id: string, base: string, result: BuildResult, now: string)
    | ResolveStep(clock: Clock, now: string)

  /** The clock never reads as the empty string. */
  ghost predicate Timed(step: Step) {
    step.now != "" && (step.ResolveStep? ==> forall id, base :: step.clock(id, base) != "")
  }

  function Apply(s: Status, step: Step): Status {
    match step
    case QueueStep(id, base, now) => MarkQueued(s, id, base, now).0
    case StartStep(id, base, now) => MarkTesting(s, id, base, now).0
    case RecordStep(id, base, result, now) => ApplyResult(s, id, base, result, now).0
    case ResolveStep(clock, now) => ResolveStuckTesting(s, clock, now).0
  }

  /** An outcome in the unbounded log; an interrupted run is one nobody observed. */
  datatype LogEntry = LogEntry(entry: HistoryEntry, interrupted: bool)

  /** What a step adds to the log of one (entry, base) pair. */
  function Logged(s: Status, step: Step, id: string, base: string): seq<LogEntry> {
    match step
    case RecordStep(i, b, result, now) =>
      if i == id && b == base then [LogEntry(OutcomeEntry(result, now), false)] else []
    case ResolveStep(clock, now) =>
      (match GetRecord(s.entries, id, base)
       case Some(r) => if r.state.Testing? then [LogEntry(InterruptedEntry(r, clock(id, base)), true)] else []
       case None => [])
    case _ => []
  }

  const NO_ENTRIES: Status := Status("", map[])

  /** The status after some steps, from any status at all. */
  function Run(origin: Status, steps: seq<Step>): Status {
    if steps == [] then origin else Apply(Run(origin, Init(steps)), Last(steps))
  }

  /** Every outcome of a pair over a run. */
  function FullLog(origin: Status, steps: seq<Step>, id: string, base: string): seq<LogEntry> {
    if steps == [] then []
    else FullLog(origin, Init(steps), id, base) + Logged(Run(origin, Init(steps)), Last(steps), id, base)
  }

  // ------------------------------------------------------------ the updater

  /**
    Each method is one locked read-modify-write of the file, so threads only interleave whole
    methods.  `steps` lists them since the updater was made, when the file read as `origin`.
   */
  class StatusUpdater {
    var file: File
    var uploads: nat
    ghost const origin: Status
    ghost var steps: seq<Step>

    function Entries(): Entries
      reads this
    {
      if file.Saved? then file.status.entries else map[]
    }

    function RecordOf(id: string, base: string): Option<Record>
      reads this
    {
      GetRecord(Entries(), id, base)
    }

    /** The file is what the steps make of the status it started from, up to the date it was written. */
    ghost predicate Valid()
      reads this
    {
      Entries() == Run(origin, steps).entries
    }

    constructor (file: File)
      ensures Valid() && this.file == file && uploads == 0 && steps == []
      ensures origin == Load(file, "")
    {
      this.file, uploads := file, 0;
      origin, steps := Load(file, ""), [];
    }

    /** Every pair but this one has the record it had. */
    twostate predicate OthersKept(id: string, base: string)
      reads this
    {
      forall i, b :: (i, b) != (id, base) ==> RecordOf(i, b) == old(RecordOf(i, b))
    }

    /** Writes what a step made of the file, and calls `on_change` if something moved. */
    method Store(status: Status, changed: bool, ghost step: Step)
      requires Valid() && status.entries == Apply(Load(file, step.now), step).entries
      modifies this
      ensures Valid() && steps == old(steps) + [step] && file == Saved(status)
      ensures uploads == old(uploads) + (if changed then 1 else 0)
    {
      EntriesDecide(Load(file, step.now), Run(origin, steps), step);
      assert Init(steps + [step]) == steps;
      file := Saved(status);
      steps := steps + [step];
      if changed {
        uploads := uploads + 1;
      }
    }

    /** An upload happens exactly when the pair was not queued already; its outcomes stay as they are. */
    method Queue(id: string, base: string, now: string) returns (changed: bool)
      requires Valid()
      modifies this
      ensures Valid() && steps == old(steps) + [QueueStep(id, base, now)]
      ensures file.Saved? && file.status.generatedAt == now && OthersKept(id, base)
      ensures RecordOf(id, base).Some? && WentLive(old(RecordOf(id, base)), RecordOf(id, base).value, Queued, now)
      ensures changed <==> !IsIn(old(RecordOf(id, base)), Queued)
      ensures uploads == old(uploads) + (if changed then 1 else 0)
    {
      var (s, c) := MarkQueued(Load(file, now), id, base, now);
      changed := c;
      Store(s, c, QueueStep(id, base, now));
    }

    /** An upload happens exactly when the pair was not testing already; its outcomes stay as they are. */
    method Start(id: string, base: string, now: string) returns (changed: bool)
      requires Valid()
      modifies this
      ensures Valid() && steps == old(steps) + [StartStep(id, base, now)]
      ensures file.Saved? && file.status.generatedAt == now && OthersKept(id, base)
      ensures RecordOf(id, base).Some? && WentLive(old(RecordOf(id, base)), RecordOf(id, base).value, Testing, now)
      ensures changed <==> !IsIn(old(RecordOf(id, base)), Testing)
      ensures uploads == old(uploads) + (if changed then 1 else 0)
    {
      var (s, c) := MarkTesting(Load(file, now), id, base, now);
      changed := c;
      Store(s, c, StartStep(id, base, now));
    }

    /** An upload happens exactly when the last outcome on record was of another state, or there was none. */
    method RecordResult(id: string, base: string, result: BuildResult, now: string) returns (changed: bool)
      requires Valid()
      modifies this
      ensures Valid() && steps == old(steps) + [RecordStep(id, base, result, now)]
      ensures file.Saved? && file.status.generatedAt == now && OthersKept(id, base)
      ensures RecordOf(id, base).Some? && Shows(RecordOf(id, base).value, OutcomeEntry(result, now))
      ensures changed <==> !LastWas(old(RecordOf(id, base)), MapState(result.status))
      ensures uploads == old(uploads) + (if changed then 1 else 0)
    {
      var (s, c) := ApplyResult(Load(file, now), id, base, result, now);
      changed := c;
      Store(s, c, RecordStep(id, base, result, now));
    }

    /** Exactly the pairs that were testing are touched, and shown as interrupted; any touch is uploaded. */
    method ResolveInterrupted(clock: Clock, now: string) returns (touched: set<(string, string)>)
      requires Valid()
      modifies this
      ensures Valid() && steps == old(steps) + [ResolveStep(clock, now)] && file.Saved?
      ensures forall id, base :: (id, base) in touched <==> IsIn(old(RecordOf(id, base)), Testing)
      ensures forall id, base :: (id, base) !in touched ==> RecordOf(id, base) == old(RecordOf(id, base))
      ensures forall id, base :: (id, base) in touched ==>
                RecordOf(id, base).Some?
                    && Shows(RecordOf(id, base).value, InterruptedEntry(RecordOf(id, base).value, clock(id, base)))
      ensures uploads == old(uploads) + (if touched != {} then 1 else 0)
    {
      var before := Load(file, now);
      var (s, t) := ResolveStuckTesting(before, clock, now);
      touched := t;
      forall id, base
        ensures (id, base) in t <==> IsIn(RecordOf(id, base), Testing)
        ensures (id, base) !in t ==> GetRecord(s.entries, id, base) == RecordOf(id, base)
        ensures (id, base) in t ==>
                  GetRecord(s.entries, id, base) == Some(Interrupt(RecordOf(id, base).value, clock(id, base)))
      {
        ResolveAt(before, clock, now, id, base);
      }
      Store(s, t != {}, ResolveStep(clock, now));
    }

    /** Whatever was done with the updater, the file agrees with the whole log of every pair. */
    lemma Published(id: string, base: string, earlier: seq<LogEntry>)
      requires Valid() && (forall i :: 0 <= i < |steps| ==> Timed(steps[i]))
      requires Agrees(GetRecord(origin.entries, id, base), earlier)
      ensures Agrees(RecordOf(id, base), earlier + FullLog(origin, steps, id, base))
    {
      FileAgreesWithLog(origin, earlier, steps, id, base);
    }
  }

  /** The record, if there is one, is in this state. */
  predicate IsIn(r: Option<Record>, state: State) {
    r.Some? && r.value.state == state
  }

  /** A record that moved to a live state keeps its outcomes, and since when the last of them lasts. */
  predicate WentLive(before: Option<Record>, after: Record, live: State, now: string) {
    && after.state == live && after.date == now
    && match before
       case None => after.history == [] && after.since == Some(now)
       case Some(r) =>
         after == r.(state := live, date := now, since := after.since)
         && (r.since.Some? ==> after.since == r.since)
  }

  /** The newest outcome of a record is this one, and its state, date and error are shown. */
  predicate Shows(r: Record, e: HistoryEntry) {
    r.history != [] && Last(r.history) == e && r.state == e.state && r.date == e.date && r.error == e.error
  }

  predicate LastWas(r: Option<Record>, state: State) {
    r.Some? && r.value.history != [] && Last(r.value.history).state == state
  }

  /** What a step makes of the records depends on nothing but the records. */
  lemma EntriesDecide(s: Status, s': Status, step: Step)
    requires s.entries == s'.entries
    ensures Apply(s, step).entries == Apply(s', step).entries
  {
  }

  // ---------------------------------------------------------- the agreement

  function EntriesOf(log: seq<LogEntry>): (h: seq<HistoryEntry>)
    ensures |h| == |log| && forall i :: 0 <= i < |log| ==> h[i] == log[i].entry
  {
    seq(|log|, i requires 0 <= i < |log| => log[i].entry)
  }

  /** An outcome starts a new streak if its state is new or the run before it was interrupted here. */
  predicate StartsStreak(log: seq<LogEntry>, i: nat)
    requires i < |log|
  {
    i == 0 || log[i].interrupted || log[i - 1].entry.state != log[i].entry.state
  }

  /** Where the current streak starts. */
  function StreakStart(log: seq<LogEntry>): (i: nat)
    requires log != []
    ensures i < |log| && StartsStreak(log, i)
    ensures forall j :: i < j < |log| ==> !StartsStreak(log, j)
  {
    if StartsStreak(log, |log| - 1) then |log| - 1
    else
      var i := StreakStart(Init(log));
      assert forall j :: 0 <= j < |log| - 1 ==> StartsStreak(log, j) == StartsStreak(Init(log), j);
      i
  }

  /** A record tells the truth about the full log of its pair. */
  ghost predicate Agrees(r: Option<Record>, log: seq<LogEntry>) {
    && (forall i :: 0 <= i < |log| ==>
          !log[i].entry.state.Queued? && !log[i].entry.state.Testing? && log[i].entry.date != "")
    && match r
       case None => log == []
       case Some(r) =>
         && r.history == LastEntries(EntriesOf(log))
         && (log != [] ==> r.since == Some(log[StreakStart(log)].entry.date))
         && (r.state.Queued? || r.state.Testing? ||
             (log != [] && r.state == Last(log).entry.state && r.date == Last(log).entry.date
              && r.error == Last(log).entry.error))
  }

  lemma StreakAfter(log: seq<LogEntry>, e: LogEntry)
    ensures StreakStart(log + [e]) ==
            if log == [] || e.interrupted || Last(log).entry.state != e.entry.state then |log| else StreakStart(log)
  {
    var log' := log + [e];
    assert Init(log') == log;
    var i := StreakStart(log');
    assert StartsStreak(log', |log|) <==> log == [] || e.interrupted || Last(log).entry.state != e.entry.state;
  }

  /** Truncating after each outcome forgets exactly what truncating the whole log forgets. */
  lemma LastEntriesAppend(log: seq<LogEntry>, e: LogEntry)
    ensures LastEntries(LastEntries(EntriesOf(log)) + [e.entry]) == LastEntries(EntriesOf(log + [e]))
    ensures log != [] ==> LastEntries(EntriesOf(log)) != [] && Last(LastEntries(EntriesOf(log))) == Last(log).entry
    ensures log == [] ==> LastEntries(EntriesOf(log)) == []
  {
    assert EntriesOf(log + [e]) == EntriesOf(log) + [e.entry];
  }

  lemma RecordAgrees(s: Status, id: string, base: string, result: BuildResult, now: string, log: seq<LogEntry>)
    requires now != "" && Agrees(GetRecord(s.entries, id, base), log)
    ensures Agrees(GetRecord(ApplyResult(s, id, base, result, now).0.entries, id, base),
                   log + [LogEntry(OutcomeEntry(result, now), false)])
    ensures ApplyResult(s, id, base, result, now).1 <==> log == [] || Last(log).entry.state != MapState(result.status)
  {
    var e := LogEntry(OutcomeEntry(result, now), false);
    LastEntriesAppend(log, e);
    StreakAfter(log, e);
    assert Last(log + [e]) == e;
  }

  lemma InterruptAgrees(r: Record, now: string, log: seq<LogEntry>)
    requires now != "" && Agrees(Some(r), log)
    ensures Agrees(Some(Interrupt(r, now)), log + [LogEntry(InterruptedEntry(r, now), true)])
  {
    var e := LogEntry(InterruptedEntry(r, now), true);
    LastEntriesAppend(log, e);
    StreakAfter(log, e);
  }

  /** Going live adds no outcome. */
  lemma LiveAgrees(s: Status, i: string, b: string, live: State, now: string, id: string, base: string,
                   log: seq<LogEntry>)
    requires (live.Queued? || live.Testing?) && Agrees(GetRecord(s.entries, id, base), log)
    ensures Agrees(GetRecord(MarkLive(s, i, b, live, now).0.entries, id, base), log)
  {
    assert EntriesOf([]) == [];
  }

  /** A step on one pair leaves the record and the log of every other pair alone. */
  lemma StepAgrees(s: Status, step: Step, id: string, base: string, log: seq<LogEntry>)
    requires Timed(step) && Agrees(GetRecord(s.entries, id, base), log)
    ensures Agrees(GetRecord(Apply(s, step).entries, id, base), log + Logged(s, step, id, base))
  {
    assert log + [] == log;
    match step
    case QueueStep(i, b, now) => LiveAgrees(s, i, b, Queued, now, id, base, log);
    case StartStep(i, b, now) => LiveAgrees(s, i, b, Testing, now, id, base, log);
    case RecordStep(i, b, result, now) =>
      if i == id && b == base {
        RecordAgrees(s, id, base, result, now, log);
      }
    case ResolveStep(clock, now) =>
      ResolveAgrees(s, clock, now, id, base, log);
  }

  lemma ResolveAgrees(s: Status, clock: Clock, now: string, id: string, base: string, log: seq<LogEntry>)
    requires clock(id, base) != "" && Agrees(GetRecord(s.entries, id, base), log)
    ensures Agrees(GetRecord(ResolveStuckTesting(s, clock, now).0.entries, id, base),
                   log + Logged(s, ResolveStep(clock, now), id, base))
  {
    assert log + [] == log;
    ResolveAt(s, clock, now, id, base);
    if GetRecord(s.entries, id, base).Some? && s.entries[id][base].state.Testing? {
      InterruptAgrees(s.entries[id][base], clock(id, base), log);
    }
  }

  /** resolve_stuck_testing, pair by pair: nothing is left testing and nothing else is touched. */
  lemma ResolveAt(s: Status, clock: Clock, now: string, id: string, base: string)
    ensures var (s', touched) := ResolveStuckTesting(s, clock, now);
            var before, after := GetRecord(s.entries, id, base), GetRecord(s'.entries, id, base);
            && ((id, base) in touched <==> before.Some? && before.value.state.Testing?)
            && ((id, base) in touched ==> after == Some(Interrupt(before.value, clock(id, base))))
            && ((id, base) !in touched ==> after == before)
            && (after.Some? ==> !after.value.state.Testing?)
  {
    if GetRecord(s.entries, id, base).Some? && s.entries[id][base].state.Testing? {
      assert (id, base) in StuckPairs(s.entries);
    }
  }

  lemma LogsJoin(a: seq<LogEntry>, b: seq<LogEntry>, c: seq<LogEntry>)
    ensures a + b + c == a + (b + c)
  {}

  /**
    Over every sequence of steps, from a file that agrees with an earlier log: the stored history is the last ten
    outcomes of the full log, `since` is the date of the outcome that started the current
    streak of the full log, and the state is a live one or that of the last outcome.
   */
  lemma {:induction false} FileAgreesWithLog(origin: Status, earlier: seq<LogEntry>, steps: seq<Step>, id: string,
                                             base: string)
    requires forall i :: 0 <= i < |steps| ==> Timed(steps[i])
    requires Agrees(GetRecord(origin.entries, id, base), earlier)
    ensures Agrees(GetRecord(Run(origin, steps).entries, id, base), earlier + FullLog(origin, steps, id, base))
  {
    if steps == [] {
      assert earlier + [] == earlier;
    } else {
      var s, log := Run(origin, Init(steps)), FullLog(origin, Init(steps), id, base);
      FileAgreesWithLog(origin, earlier, Init(steps), id, base);
      StepAgrees(s, Last(steps), id, base, earlier + log);
      LogsJoin(earlier, log, Logged(s, Last(steps), id, base));
    }
  }

  /** A file without records, the first one ever, agrees with the empty log. */
  lemma FirstFileAgrees(steps: seq<Step>, id: string, base: string)
    requires forall i :: 0 <= i < |steps| ==> Timed(steps[i])
    ensures Agrees(GetRecord(Run(NO_ENTRIES, steps).entries, id, base), FullLog(NO_ENTRIES, steps, id, base))
  {
    FileAgreesWithLog(NO_ENTRIES, [], steps, id, base);
    assert [] + FullLog(NO_ENTRIES, steps, id, base) == FullLog(NO_ENTRIES, steps, id, base);
  }

  // ---------------------------------------- since, and the run of equal states

  /** Where the last run of outcomes of one state starts. */
  function PlainStart(log: seq<LogEntry>): (i: nat)
    requires log != []
    ensures i < |log| && (i == 0 || log[i - 1].entry.state != log[i].entry.state)
    ensures forall j :: i < j < |log| ==> log[j - 1].entry.state == log[j].entry.state
  {
    if |log| == 1 || log[|log| - 2].entry.state != log[|log| - 1].entry.state then |log| - 1
    else
      var i := PlainStart(Init(log));
      assert forall j :: 0 <= j < |log| - 1 ==> Init(log)[j] == log[j];
      i
  }

  /** The streak is the last run of equal states exactly when no outcome after its first is an interruption. */
  lemma StreakIsPlainExactly(log: seq<LogEntry>)
    requires log != []
    ensures StreakStart(log) == PlainStart(log) <==> forall j :: PlainStart(log) < j < |log| ==> !log[j].interrupted
  {
    var i, p := StreakStart(log), PlainStart(log);
    assert StartsStreak(log, p);
    if i == p {
      forall j | p < j < |log|
        ensures !log[j].interrupted
      {
        assert !StartsStreak(log, j);
      }
    } else {
      assert i > p && StartsStreak(log, i);
      assert log[i - 1].entry.state == log[i].entry.state;
      assert log[i].interrupted;
    }
  }

  /** So `since` dates the last run of equal states when no later outcome of that run is an interruption. */
  lemma SinceIsPlain(steps: seq<Step>, id: string, base: string)
    requires forall i :: 0 <= i < |steps| ==> Timed(steps[i])
    requires var log := FullLog(NO_ENTRIES, steps, id, base);
             log != [] && forall j :: PlainStart(log) < j < |log| ==> !log[j].interrupted
    ensures var log := FullLog(NO_ENTRIES, steps, id, base);
            var r := GetRecord(Run(NO_ENTRIES, steps).entries, id, base);
            r.Some? && r.value.since == Some(log[PlainStart(log)].entry.date)
  {
    FirstFileAgrees(steps, id, base);
    StreakIsPlainExactly(FullLog(NO_ENTRIES, steps, id, base));
  }

  /** A failure, and then a build that is interrupted: both outcomes are failures, and `since` dates the second. */
  lemma InterruptionRestartsSince(id: string, base: string, failure: BuildResult) returns (steps: seq<Step>)
    requires failure.status == "failed" && failure.end == "1"
    ensures forall i :: 0 <= i < |steps| ==> Timed(steps[i])
    ensures var log := FullLog(NO_ENTRIES, steps, id, base);
            var r := GetRecord(Run(NO_ENTRIES, steps).entries, id, base);
            && |log| == 2 && PlainStart(log) == 0 && log[0].entry.date == "1"
            && r.Some? && r.value.since == Some("3")
  {
    var clock: Clock := (i, b) => "3";
    var failed, started := RecordStep(id, base, failure, "1"), StartStep(id, base, "2");
    var resolved := ResolveStep(clock, "3");
    steps := [failed, started, resolved];
    var s1 := Apply(NO_ENTRIES, failed);
    var s2 := Apply(s1, started);
    assert Init(steps) == [failed, started] && Init(Init(steps)) == [failed] && Init([failed]) == [];
    assert Run(NO_ENTRIES, [failed]) == s1 && Run(NO_ENTRIES, [failed, started]) == s2;
    assert FullLog(NO_ENTRIES, [failed], id, base) == [] + [LogEntry(OutcomeEntry(failure, "1"), false)];
    assert FullLog(NO_ENTRIES, [failed, started], id, base) == FullLog(NO_ENTRIES, [failed], id, base) + [];
    assert GetRecord(s2.entries, id, base).value.state == Testing;
    ResolveAt(s2, clock, "3", id, base);
  }

  /** A badge says "success" only if some build of that pair reported success. */
  lemma SuccessWasObserved(steps: seq<Step>, id: string, base: string)
    requires forall i :: 0 <= i < |steps| ==> Timed(steps[i])
    requires GetRecord(Run(NO_ENTRIES, steps).entries, id, base).Some?
             && GetRecord(Run(NO_ENTRIES, steps).entries, id, base).value.state.Success?
    ensures exists i :: 0 <= i < |steps| && ReportsSuccess(steps[i], id, base)
  {
    var log := FullLog(NO_ENTRIES, steps, id, base);
    FirstFileAgrees(steps, id, base);
    SuccessIsLogged(GetRecord(Run(NO_ENTRIES, steps).entries, id, base).value, log);
    LoggedSuccessWasReported(steps, id, base, |log| - 1);
  }

  lemma SuccessIsLogged(r: Record, log: seq<LogEntry>)
    requires Agrees(Some(r), log) && r.state.Success?
    ensures log != [] && Last(log).entry.state.Success?
  {}

  predicate ReportsSuccess(step: Step, id: string, base: string) {
    step.RecordStep? && step.id == id && step.base == base && step.result.status == "success"
  }

  lemma {:induction false} LoggedSuccessWasReported(steps: seq<Step>, id: string, base: string, n: nat)
    requires n < |FullLog(NO_ENTRIES, steps, id, base)| && FullLog(NO_ENTRIES, steps, id, base)[n].entry.state.Success?
    ensures exists i :: 0 <= i < |steps| && ReportsSuccess(steps[i], id, base)
  {
    if n < |FullLog(NO_ENTRIES, Init(steps), id, base)| {
      LoggedSuccessWasReported(Init(steps), id, base, n);
      var i :| 0 <= i < |Init(steps)| && ReportsSuccess(Init(steps)[i], id, base);
      assert ReportsSuccess(steps[i], id, base);
    } else {
      assert ReportsSuccess(steps[|steps| - 1], id, base);
    }
  }

  predicate SinglePair(step: Step) {
    !step.ResolveStep?
  }

  /** Updates of different pairs commute, up to the date the file was generated. */
  lemma DifferentPairsCommute(s: Status, a: Step, b: Step)
    requires SinglePair(a) && SinglePair(b) && (a.id, a.base) != (b.id, b.base)
    ensures Apply(Apply(s, a), b).entries == Apply(Apply(s, b), a).entries
  {
    var ra, rb := NewRecord(s.entries, a), NewRecord(s.entries, b);
    WritesOneRecord(s, a);
    WritesOneRecord(s, b);
    WritesOneRecord(Apply(s, a), b);
    WritesOneRecord(Apply(s, b), a);
    assert NewRecord(Apply(s, a).entries, b) == rb && NewRecord(Apply(s, b).entries, a) == ra;
    SetsCommute(s.entries, a.id, a.base, ra, b.id, b.base, rb);
  }

  /** The record a single-pair step writes depends on the record it finds and on nothing else. */
  function NewRecord(entries: Entries, step: Step): Record
    requires SinglePair(step)
  {
    var s := Status("", match GetRecord(entries, step.id, step.base)
                        case None => map[]
                        case Some(r) => map[step.id := map[step.base := r]]);
    Apply(s, step).entries[step.id][step.base]
  }

  lemma WritesOneRecord(s: Status, step: Step)
    requires SinglePair(step)
    ensures Apply(s, step).entries == SetRecord(s.entries, step.id, step.base, NewRecord(s.entries, step))
  {}

  lemma SetsCommute(entries: Entries, i: string, b: string, r: Record, i': string, b': string, r': Record)
    requires (i, b) != (i', b')
    ensures SetRecord(SetRecord(entries, i, b, r), i', b', r') == SetRecord(SetRecord(entries, i', b', r'), i, b, r)
  {
    var l, m := SetRecord(SetRecord(entries, i, b, r), i', b', r'), SetRecord(SetRecord(entries, i', b', r'), i, b, r);
    forall id | id in l
      ensures l[id] == m[id]
    {
    }
  }
}
