/** The chain of scan stages after discovery, each flushed and then checkpointed, and what a
    resumed run may skip. The process may die between any two durable writes, and a flush or a
    checkpoint write that fails is silent. */
module StageChain {
  import opened Traces
  import opened Wrappers

  datatype Stage = Inventory | Tls | Ssh | Api | Identity | DataAtRest | BrokerEmail | Reports

  const STAGES: seq<Stage> := [Inventory, Tls, Ssh, Api, Identity, DataAtRest, BrokerEmail, Reports]

  function Position(s: Stage): (i: nat)
    ensures i < |STAGES| && STAGES[i] == s
  {
    match s
    case Inventory => 0
    case Tls => 1
    case Ssh => 2
    case Api => 3
    case Identity => 4
    case DataAtRest => 5
    case BrokerEmail => 6
    case Reports => 7
  }

  /** What a process tries to make durable. A main-stage checkpoint is "completed" or "partial". */
  datatype Write =
    | BatchRow
    | DiscoveryRow
    | Flushed(stage: Stage)
    | Checkpointed(stage: Stage, partial: bool)
    | FinalPersist
    | CoverageFlushed
    | ReportsWritten

  /** An attempted write, and whether it reached the disk. */
  datatype Tried = Tried(write: Write, ok: bool)

  /** Where a process stands; positions index `STAGES`. */
  datatype Phase =
    | Discover
    | Enter(at: nat)
    | Flush(at: nat)
    | Persist
    | Coverage
    | WriteReports
    | Mark(at: nat)
    | Finished
    | NothingToScan
    | ShortCircuited

  /** One process: the checkpointed stages it loaded, how long the log was then, where it
      stands, and which stages it skipped. */
  datatype Run = Run(completed: set<Stage>, base: nat, phase: Phase, skipped: set<Stage>)

  /** The log holds every attempt in order; only what reached the disk is seen by a later run. */
  datatype System = System(log: seq<Tried>, process: Option<Run>)

  /** Discovery leaves a checkpoint row for a batch, or one for the whole stage, or ends on a
      branch that has neither. */
  datatype DiscoveryMove = BatchDone | StageDone | Unbatched

  /** What a step meets: how discovery moves, open ports or none, a congruent headline or not,
      partial failures of the stage (for the api stage also those among its own rows), whether
      a flush and a checkpoint write, both silent on failure, reach the disk, and whether the scanners
      find an endpoint one may be following: they need not find again what an earlier run found. */
  datatype Conditions = Conditions(discovery: DiscoveryMove, targets: bool, congruent: bool,
                                   partial: bool, flushed: bool, written: bool, found: bool)

  /** Loading the checkpoints may fail; the process then starts over under the same key. */
  datatype Event = Boot(loaded: bool) | Tick(met: Conditions) | Kill

  predicate IsMark(t: Tried, s: Stage) {
    t.write.Checkpointed? && t.write.stage == s
  }

  predicate Arrived(t: Tried, s: Stage) {
    t.ok && IsMark(t, s)
  }

  /** The stages with a checkpoint row. */
  function Marks(log: seq<Tried>): set<Stage> {
    set t | t in log && t.ok && t.write.Checkpointed? :: t.write.stage
  }

  function BootRun(log: seq<Tried>, loaded: bool): Run {
    var completed := if loaded then Marks(log) else {};
    Run(completed, |log|, if Reports in completed then ShortCircuited else Discover, {})
  }

  function Step(log: seq<Tried>, r: Run, met: Conditions): (seq<Tried>, Run) {
    match r.phase
    case Discover =>
      var next := r.(phase := if met.targets then Enter(0) else NothingToScan);
      (match met.discovery
       case BatchDone => (log + [Tried(BatchRow, met.written)], r)
       case StageDone => (log + [Tried(DiscoveryRow, met.written)], next)
       case Unbatched => (log, next))
    case Enter(i) =>
      if i >= |STAGES| then (log, r.(phase := Finished))
      else if STAGES[i] == Reports then (log, r.(phase := Persist))
      else if STAGES[i] in r.completed then
        // A completed inventory stage skips the fingerprinting but is flushed and marked again.
        (log, r.(phase := if STAGES[i] == Inventory then Flush(i) else Enter(i + 1), skipped := r.skipped + {STAGES[i]}))
      else (log, r.(phase := Flush(i)))
    case Flush(i) =>
      if i >= |STAGES| then (log, r) else (log + [Tried(Flushed(STAGES[i]), met.flushed)], r.(phase := Mark(i)))
    case Persist => (log + [Tried(FinalPersist, true)], r.(phase := Coverage))
    case Coverage => (log + [Tried(CoverageFlushed, met.flushed)], r.(phase := WriteReports))
    case WriteReports =>
      if met.congruent then (log + [Tried(ReportsWritten, true)], r.(phase := Mark(7))) else (log, r)
    case Mark(i) =>
      if i >= |STAGES| then (log, r)
      else
        var partial := met.partial && STAGES[i] != Inventory && STAGES[i] != Reports;
        (log + [Tried(Checkpointed(STAGES[i], partial), met.written)], r.(phase := Enter(i + 1)))
    case Finished => (log, r)
    case NothingToScan => (log, r)
    case ShortCircuited => (log, r)
  }

  function Apply(s: System, e: Event): System {
    match e
    case Boot(loaded) => s.(process := Some(BootRun(s.log, loaded)))
    case Kill => s.(process := None)
    case Tick(met) =>
      if s.process.None? then s
      else if s.process.value.phase.WriteReports? && !met.congruent then s.(process := None)
      else var (log, r) := Step(s.log, s.process.value, met); System(log, Some(r))
  }

  function Transition(): (System, Event) -> System {
    (s, e) => Apply(s, e)
  }

  const FRESH := System([], None)

  function Execute(trace: seq<Event>): System {
    Fold(Transition(), FRESH, trace)
  }

  /** Some checkpoint row of the run reached the table. */
  ghost predicate HasRow(log: seq<Tried>) {
    exists i :: 0 <= i < |log| && log[i].ok && (log[i].write.Checkpointed? || log[i].write.BatchRow? || log[i].write.DiscoveryRow?)
  }

  /** `--list-resumable`: checkpoint rows exist, none of them a completed reports stage. */
  ghost predicate Listed(log: seq<Tried>) {
    HasRow(log) && Reports !in Marks(log)
  }

  ghost predicate Ended(r: Run) {
    r.phase.Finished? || r.phase.NothingToScan? || r.phase.ShortCircuited?
  }
}
