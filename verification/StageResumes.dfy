/** What a resume does with what it finds: what it runs again, when it is offered at all, and
    that it completes. */
module StageResumes {
  import opened StageChain
  import opened StageProofs
  import opened StagePrefix
  import opened Traces
  import opened Wrappers

  // ---------------------------------------------------------------- a rolled-back flush

  /** A first run whose flush of the tls stage rolls back while its checkpoint arrives, and its death. */
  function FirstTrace(): seq<Event> {
    [Boot(true), Tick(CALM), Tick(CALM), Tick(CALM), Tick(CALM), Tick(CALM), Tick(CALM.(flushed := false)), Tick(CALM), Kill]
  }

  /** And a resume as far as the skipping of that stage. */
  function RolledBackTrace(): seq<Event> {
    FirstTrace() + [Boot(true), Tick(CALM), Tick(CALM), Tick(CALM), Tick(CALM), Tick(CALM)]
  }

  lemma FirstRun() returns (log: seq<Tried>)
    ensures log == [Tried(DiscoveryRow, true), Tried(Flushed(Inventory), true), Tried(Checkpointed(Inventory, false), true),
                    Tried(Flushed(Tls), false), Tried(Checkpointed(Tls, false), true)]
    ensures Execute(FirstTrace()) == System(log, None)
  {
    ExecuteBoot();
    log := [Tried(DiscoveryRow, true)];
    var trace, s := [Boot(true)], System([], Some(Run({}, 0, Discover, {})));
    ExecuteTick(trace, s, CALM);
    trace, s := trace + [Tick(CALM)], System(log, Some(Run({}, 0, Enter(0), {})));
    ExecuteTick(trace, s, CALM);
    trace, s := trace + [Tick(CALM)], System(log, Some(Run({}, 0, Flush(0), {})));
    ExecuteTick(trace, s, CALM);
    log := log + [Tried(Flushed(Inventory), true)];
    trace, s := trace + [Tick(CALM)], System(log, Some(Run({}, 0, Mark(0), {})));
    ExecuteTick(trace, s, CALM);
    log := log + [Tried(Checkpointed(Inventory, false), true)];
    trace, s := trace + [Tick(CALM)], System(log, Some(Run({}, 0, Enter(1), {})));
    ExecuteTick(trace, s, CALM);
    trace, s := trace + [Tick(CALM)], System(log, Some(Run({}, 0, Flush(1), {})));
    ExecuteTick(trace, s, CALM.(flushed := false));
    log := log + [Tried(Flushed(Tls), false)];
    trace, s := trace + [Tick(CALM.(flushed := false))], System(log, Some(Run({}, 0, Mark(1), {})));
    ExecuteTick(trace, s, CALM);
    log := log + [Tried(Checkpointed(Tls, false), true)];
    trace := trace + [Tick(CALM)];
    ExecuteMore(trace, Kill);
    assert trace + [Kill] == FirstTrace();
  }

  lemma FirstRunMarks(log: seq<Tried>)
    requires log == [Tried(DiscoveryRow, true), Tried(Flushed(Inventory), true), Tried(Checkpointed(Inventory, false), true),
                     Tried(Flushed(Tls), false), Tried(Checkpointed(Tls, false), true)]
    ensures Marks(log) == {Inventory, Tls}
  {
    assert log[2] in log && log[4] in log;
  }

  /** The first steps of a resume that loaded the inventory and tls stages. */
  lemma SecondStart(trace: seq<Event>, before: seq<Tried>) returns (log: seq<Tried>)
    requires Execute(trace) == System(before, None) && Marks(before) == {Inventory, Tls}
    ensures log == before + [Tried(DiscoveryRow, true), Tried(Flushed(Inventory), true)]
    ensures Execute(trace + [Boot(true), Tick(CALM), Tick(CALM), Tick(CALM)])
         == System(log, Some(Run({Inventory, Tls}, |before|, Mark(0), {Inventory})))
  {
    var run := Run({Inventory, Tls}, |before|, Discover, {});
    ExecuteMore(trace, Boot(true));
    var more := trace + [Boot(true)];
    ExecuteTick(more, System(before, Some(run)), CALM);
    log := before + [Tried(DiscoveryRow, true)];
    ExecuteTick(more + [Tick(CALM)], System(log, Some(run.(phase := Enter(0)))), CALM);
    assert {} + {Inventory} == {Inventory};
    run := run.(phase := Flush(0), skipped := {Inventory});
    ExecuteTick(more + [Tick(CALM)] + [Tick(CALM)], System(log, Some(run)), CALM);
    log := log + [Tried(Flushed(Inventory), true)];
    assert more + [Tick(CALM)] + [Tick(CALM)] + [Tick(CALM)] == trace + [Boot(true), Tick(CALM), Tick(CALM), Tick(CALM)];
  }

  /** And the next ones, past the inventory stage. */
  lemma SecondRun(trace: seq<Event>, before: seq<Tried>) returns (log: seq<Tried>)
    requires Execute(trace) == System(before, None) && Marks(before) == {Inventory, Tls}
    ensures log == before + [Tried(DiscoveryRow, true), Tried(Flushed(Inventory), true), Tried(Checkpointed(Inventory, false), true)]
    ensures Execute(trace + [Boot(true), Tick(CALM), Tick(CALM), Tick(CALM), Tick(CALM), Tick(CALM)])
         == System(log, Some(Run({Inventory, Tls}, |before|, Enter(2), {Inventory, Tls})))
  {
    log := SecondStart(trace, before);
    var run := Run({Inventory, Tls}, |before|, Mark(0), {Inventory});
    var more := trace + [Boot(true), Tick(CALM), Tick(CALM), Tick(CALM)];
    ExecuteTick(more, System(log, Some(run)), CALM);
    log := log + [Tried(Checkpointed(Inventory, false), true)];
    ExecuteTick(more + [Tick(CALM)], System(log, Some(run.(phase := Enter(1)))), CALM);
    assert more + [Tick(CALM)] + [Tick(CALM)] == trace + [Boot(true), Tick(CALM), Tick(CALM), Tick(CALM), Tick(CALM), Tick(CALM)];
    assert {Inventory} + {Tls} == {Inventory, Tls};
  }

  /** The tls stage is checkpointed and then skipped although none of its rows was ever flushed. */
  lemma RolledBackFlushIsSkipped()
    ensures var s := Execute(RolledBackTrace());
            && Tls in Marks(s.log)
            && s.process.Some?
            && Tls in s.process.value.skipped
            && forall i :: 0 <= i < |s.log| ==> s.log[i] != Tried(Flushed(Tls), true)
  {
    var before := FirstRun();
    FirstRunMarks(before);
    var log := SecondRun(FirstTrace(), before);
    assert log[4] == before[4] && log[4] in log;
  }

  // ---------------------------------------------------------------- what is flushed again

  /** The process itself has attempted to flush the stage. */
  ghost predicate FlushedFrom(log: seq<Tried>, base: nat, s: Stage) {
    exists j :: base <= j < |log| && log[j].write == Flushed(s)
  }

  ghost function Passed(p: Phase): nat {
    match p
    case Enter(i) => i
    case Flush(i) => i
    case Mark(i) => i + 1
    case Persist | Coverage | WriteReports => 7
    case Finished => 8
    case Discover | NothingToScan | ShortCircuited => 0
  }

  ghost predicate StageAtHand(log: seq<Tried>, r: Run) {
    && r.base <= |log|
    && r.completed == Marks(log[..r.base])
    && (r.phase.Flush? || r.phase.Mark? ==>
          r.phase.at < |STAGES| && (STAGES[r.phase.at] in {Inventory, Reports} || STAGES[r.phase.at] !in r.completed))
  }

  /** A process has flushed exactly the stages it has passed and did not load. */
  ghost predicate FlushesItsOwn(log: seq<Tried>, r: Run, s: Stage) {
    FlushedFrom(log, r.base, s) <==> Position(s) < Passed(r.phase) && s !in r.completed
  }

  ghost predicate Flushing(s: System) {
    s.process.Some? ==>
      && StageAtHand(s.log, s.process.value)
      && forall x :: x != Inventory && x != Reports ==> FlushesItsOwn(s.log, s.process.value, x)
  }

  lemma FlushedFromSnoc(log: seq<Tried>, t: Tried, base: nat, s: Stage)
    requires base <= |log|
    ensures FlushedFrom(log + [t], base, s) <==> FlushedFrom(log, base, s) || t.write == Flushed(s)
  {
    var more := log + [t];
    if FlushedFrom(log, base, s) {
      var j :| base <= j < |log| && log[j].write == Flushed(s);
      assert more[j].write == Flushed(s);
    }
    if t.write == Flushed(s) {
      assert more[|log|].write == Flushed(s);
    }
    if FlushedFrom(more, base, s) {
      var j :| base <= j < |more| && more[j].write == Flushed(s);
      assert j < |log| ==> log[j].write == Flushed(s);
    }
  }

  lemma StepAtHand(log: seq<Tried>, r: Run, met: Conditions)
    requires StageAtHand(log, r)
    ensures var (log', r') := Step(log, r, met); StageAtHand(log', r')
  {
    StepPast(log, r, met, r.base);
  }

  lemma StepFlushes(log: seq<Tried>, r: Run, met: Conditions, s: Stage)
    requires StageAtHand(log, r) && FlushesItsOwn(log, r, s) && s != Inventory && s != Reports
    ensures var (log', r') := Step(log, r, met); FlushesItsOwn(log', r', s)
  {
    match r.phase
    case Enter(i) => EnterFlushes(log, r, met, s, i);
    case Flush(i) => FlushFlushes(log, r, met, s, i);
    case Mark(i) => FlushedFromSnoc(log, Step(log, r, met).0[|log|], r.base, s);
    case Discover =>
      FlushedFromSnoc(log, Tried(BatchRow, met.written), r.base, s);
      FlushedFromSnoc(log, Tried(DiscoveryRow, met.written), r.base, s);
    case Persist => FlushedFromSnoc(log, Tried(FinalPersist, true), r.base, s);
    case Coverage => FlushedFromSnoc(log, Tried(CoverageFlushed, met.flushed), r.base, s);
    case WriteReports => FlushedFromSnoc(log, Tried(ReportsWritten, true), r.base, s);
    case _ =>
  }

  lemma EnterFlushes(log: seq<Tried>, r: Run, met: Conditions, s: Stage, i: nat)
    requires r.phase == Enter(i) && FlushesItsOwn(log, r, s) && s != Inventory && s != Reports
    ensures var (log', r') := Step(log, r, met); FlushesItsOwn(log', r', s)
  {
    if i < |STAGES| {
      PositionOf(i);
    }
  }

  lemma FlushFlushes(log: seq<Tried>, r: Run, met: Conditions, s: Stage, i: nat)
    requires r.phase == Flush(i) && StageAtHand(log, r) && FlushesItsOwn(log, r, s) && s != Inventory && s != Reports
    ensures var (log', r') := Step(log, r, met); FlushesItsOwn(log', r', s)
  {
    PositionOf(i);
    FlushedFromSnoc(log, Tried(Flushed(STAGES[i]), met.flushed), r.base, s);
  }

  lemma HistoryFlushes(trace: seq<Event>)
    requires forall e :: e in trace ==> Loads(e)
    ensures Flushing(Execute(trace))
  {
    forall s, e | Flushing(s) && Loads(e) ensures Flushing(Transition()(s, e)) {
      match e
      case Boot(_) => assert s.log[..|s.log|] == s.log;
      case Kill =>
      case Tick(met) =>
        if s.process.Some? {
          StepAtHand(s.log, s.process.value, met);
          forall x | x != Inventory && x != Reports
            ensures FlushesItsOwn(Step(s.log, s.process.value, met).0, Step(s.log, s.process.value, met).1, x)
          {
            StepFlushes(s.log, s.process.value, met, x);
          }
        }
    }
    FoldInvariant(Transition(), s => Flushing(s), e => Loads(e), FRESH, trace);
  }

  /** A stage that a resumed process has passed was flushed by it, again if an earlier process had
      flushed it already, exactly when every earlier flush of the stage was cut off: the process
      died, or the checkpoint was lost, between the flush and its checkpoint. */
  lemma FlushedAgainExactlyWhen(trace: seq<Event>, s: Stage)
    requires forall e :: e in trace ==> Loads(e)
    requires s != Inventory && s != Reports
    requires Execute(trace).process.Some? && Position(s) < Passed(Execute(trace).process.value.phase)
    ensures var log, base := Execute(trace).log, Execute(trace).process.value.base;
            && base <= |log|
            && (FlushedFrom(log, base, s) <==>
                  forall i :: 0 <= i < base && log[i].write == Flushed(s) ==> CutOff(log[..base], i, s))
  {
    HistoryFlushes(trace);
    HistorySafe(trace);
    var log, r := Execute(trace).log, Execute(trace).process.value;
    MarkedAfterFlush(log, r.base, s);
    assert FlushesItsOwn(log, r, s);
  }

  lemma MarkedAfterFlush(log: seq<Tried>, base: nat, s: Stage)
    requires Ordered(log) && base <= |log| && s != Reports
    ensures s in Marks(log[..base]) <==>
              exists i :: 0 <= i < base && log[i].write == Flushed(s) && !CutOff(log[..base], i, s)
  {
    var part := log[..base];
    MarksAt(part, s);
    if s in Marks(part) {
      var k :| 0 <= k < base && Arrived(part[k], s);
      assert log[k] == part[k] && TailFor(log, k, s);
      assert log[k - 1].write == Flushed(s) && !CutOff(part, k - 1, s);
    }
    if i :| 0 <= i < base && log[i].write == Flushed(s) && !CutOff(part, i, s) {
      assert Arrived(part[i + 1], s);
    }
  }

  /** Conversely a stage is flushed a second time only after a flush that was cut off. */
  lemma SecondFlushMeansCutOff(trace: seq<Event>, s: Stage, i: nat, j: nat)
    requires forall e :: e in trace ==> Loads(e)
    requires s != Inventory
    requires var log := Execute(trace).log; i < j < |log| && log[i].write == log[j].write == Flushed(s)
    ensures CutOff(Execute(trace).log, i, s)
  {
    HistoryOnce(trace);
    var log := Execute(trace).log;
    assert Again(log[j], s);
    if i + 1 == j {
      assert !Arrived(log[j], s);
    }
  }

  // ---------------------------------------------------------------- what is listed

  /** A reports checkpoint from `base` on is the last entry, of a run that is done. */
  ghost predicate ReportsLast(log: seq<Tried>, r: Run) {
    && r.base <= |log|
    && (Reports in r.completed ==> Reports in Marks(log[..r.base]))
    && if r.phase.Finished? || (r.phase.Enter? && r.phase.at >= |STAGES|)
       then |log| > r.base && IsMark(log[|log| - 1], Reports)
            && (Reports in Marks(log) <==> Reports in Marks(log[..r.base]) || log[|log| - 1].ok)
       else && (Reports in Marks(log) <==> Reports in Marks(log[..r.base]))
            && (r.phase.ShortCircuited? ==> Reports in r.completed)
            && (r.phase.Mark? || r.phase.Flush? ==> r.phase.at < |STAGES|)
  }

  ghost predicate Listing(s: System) {
    s.process.Some? ==> ReportsLast(s.log, s.process.value)
  }

  lemma StepListing(log: seq<Tried>, r: Run, met: Conditions)
    requires ReportsLast(log, r)
    ensures var (log', r') := Step(log, r, met); ReportsLast(log', r')
  {
    if r.phase.Mark? {
      MarkListing(log, r, met);
    } else {
      var log' := Step(log, r, met).0;
      StepPast(log, r, met, r.base);
      StepLog(log, r, met);
      if |log'| > |log| {
        MarksSnoc(log, log'[|log|]);
      }
    }
  }

  lemma MarkListing(log: seq<Tried>, r: Run, met: Conditions)
    requires ReportsLast(log, r) && r.phase.Mark?
    ensures var (log', r') := Step(log, r, met); ReportsLast(log', r')
  {
    var log' := Step(log, r, met).0;
    StepPast(log, r, met, r.base);
    PositionOf(r.phase.at);
    assert log' == log + [log'[|log|]];
    MarksSnoc(log, log'[|log|]);
  }

  /** Over every history, a run that has ended is listed as resumable if and only if some row of it
      reached the table, no earlier process had checkpointed its reports, and it found nothing to
      scan or its reports checkpoint, the last thing it attempted, was lost. */
  lemma EndedRunIsListedExactlyWhen(trace: seq<Event>)
    requires Execute(trace).process.Some? && Ended(Execute(trace).process.value)
    ensures var log, r := Execute(trace).log, Execute(trace).process.value;
            && r.base <= |log|
            && (r.phase.Finished? ==> |log| > 0)
            && (Listed(log) <==>
                  && HasRow(log)
                  && Reports !in Marks(log[..r.base])
                  && (r.phase.NothingToScan? || (r.phase.Finished? && !log[|log| - 1].ok)))
  {
    forall s, e | Listing(s) ensures Listing(Transition()(s, e)) {
      match e
      case Boot(_) => assert s.log[..|s.log|] == s.log;
      case Kill =>
      case Tick(met) =>
        if s.process.Some? {
          StepListing(s.log, s.process.value, met);
        }
    }
    FoldInvariant(Transition(), s => Listing(s), _ => true, FRESH, trace);
  }

  // ---------------------------------------------------------------- finished runs

  ghost predicate Idle(s: System, log: seq<Tried>) {
    s.log == log && s.process.Some? && s.process.value.phase.ShortCircuited?
  }

  /** Resuming a finished run writes nothing, however long it is left running; and a run is listed
      as resumable exactly when it has a row and a resume would not stop at once. */
  lemma FinishedRunStaysFinished(s: System, ticks: seq<Event>)
    requires forall e :: e in ticks ==> e.Tick?
    ensures Reports in Marks(s.log) ==> Fold(Transition(), Apply(s, Boot(true)), ticks).log == s.log
    ensures Listed(s.log) <==> HasRow(s.log) && !Apply(s, Boot(true)).process.value.phase.ShortCircuited?
  {
    if Reports in Marks(s.log) {
      var log := s.log;
      FoldInvariant(Transition(), x => Idle(x, log), (e: Event) => e.Tick?, Apply(s, Boot(true)), ticks);
    }
  }

  // ---------------------------------------------------------------- progress

  function Ticker(): System -> System {
    s => Apply(s, Tick(CALM))
  }

  ghost function Remaining(s: System): nat {
    if s.process.None? then 0
    else match s.process.value.phase
      case Discover => 42
      case Enter(i) => if i < 8 then 5 * (8 - i) + 1 else 1
      case Flush(i) => if i < 8 then 5 * (8 - i) else 0
      case Mark(i) => if i < 8 then 5 * (8 - i) - 3 else 0
      case Persist => 5
      case Coverage => 4
      case WriteReports => 3
      case Finished => 0
      case NothingToScan => 0
      case ShortCircuited => 0
  }

  /** A calm run that has marked, or found marked, every stage up to where it stands. */
  ghost predicate Live(s: System) {
    && s.process.Some?
    && s.process.value.completed <= Marks(s.log)
    && MarkedBelow(s.log, Reached(s.process.value.phase))
    && var p := s.process.value.phase;
    && (p.Enter? ==> p.at <= 8)
    && (p.Flush? || p.Mark? ==> p.at < 8)
    && !p.NothingToScan?
    && (p.ShortCircuited? ==> Reports in Marks(s.log))
  }

  ghost predicate Complete(s: System) {
    s.process.Some? && (s.process.value.phase.Finished? || s.process.value.phase.ShortCircuited?)
  }

  /** What the step leaves is live, and nearer the end. */
  ghost predicate Nears(s: System, t: System) {
    && Live(t)
    && (Complete(s) ==> Complete(t))
    && (!Complete(s) ==> Remaining(t) < Remaining(s))
  }

  lemma EnterLive(s: System)
    requires Live(s) && s.process.value.phase.Enter?
    ensures Nears(s, Ticker()(s))
  {
    var i := s.process.value.phase.at;
    if i < 8 {
      PositionOf(i);
    }
  }

  lemma MarkLive(s: System)
    requires Live(s) && s.process.value.phase.Mark?
    ensures Nears(s, Ticker()(s))
  {
    var r := s.process.value;
    var log' := Step(s.log, r, CALM).0;
    assert log' == s.log + [log'[|s.log|]];
    MarksSnoc(s.log, log'[|s.log|]);
  }

  lemma WriteLive(s: System)
    requires Live(s) && !s.process.value.phase.Enter? && !s.process.value.phase.Mark?
    ensures Nears(s, Ticker()(s))
  {
    var r := s.process.value;
    var log' := Step(s.log, r, CALM).0;
    StepLog(s.log, r, CALM);
    if |log'| > |s.log| {
      MarksSnoc(s.log, log'[|s.log|]);
    }
  }

  lemma TickLive(s: System)
    requires Live(s)
    ensures Nears(s, Ticker()(s))
  {
    match s.process.value.phase
    case Enter(_) => EnterLive(s);
    case Mark(_) => MarkLive(s);
    case _ => WriteLive(s);
  }

  lemma {:induction false} IterateLive(s: System, n: nat)
    requires Live(s)
    ensures Live(Iterate(Ticker(), s, n))
    decreases n
  {
    if n > 0 {
      IterateLive(s, n - 1);
      TickLive(Iterate(Ticker(), s, n - 1));
    }
  }

  /** A resume that is left alone and meets no trouble always completes: after any history, whatever
      was lost in it, within 42 steps it finishes, or stops because the run was finished before;
      and whenever it finishes all eight stages are checkpointed, lost ones made good. */
  lemma ResumeCompletes(s: System, loaded: bool)
    ensures var t := Fold(Transition(), Apply(s, Boot(loaded)), seq(42, _ => Tick(CALM)));
            && t.process.Some?
            && (t.process.value.phase.ShortCircuited? ==> loaded && Reports in Marks(s.log) && t.log == s.log)
            && (!t.process.value.phase.ShortCircuited? ==>
                  t.process.value.phase.Finished? && forall x: Stage :: x in Marks(t.log))
  {
    var start := Apply(s, Boot(loaded));
    var holds, done, rank := x => Live(x), x => Complete(x), x => Remaining(x);
    forall x ensures Advances(Ticker(), holds, done, rank, x) {
      if Live(x) {
        TickLive(x);
      }
    }
    IterateReaches(Ticker(), holds, done, rank, start, 42);
    IterateLive(start, 42);
    IterateIsFold(Transition(), Ticker(), Tick(CALM), start, 42);
    var t := Iterate(Ticker(), start, 42);
    forall x: Stage | t.process.value.phase.Finished? ensures x in Marks(t.log) {
      assert STAGES[Position(x)] in Marks(t.log);
    }
    StoppedIsIdle(s, loaded, 42);
  }

  lemma {:induction false} StoppedIsIdle(s: System, loaded: bool, n: nat)
    ensures var start := Apply(s, Boot(loaded));
            var t := Iterate(Ticker(), start, n);
            t.process.Some? && t.process.value.phase.ShortCircuited? ==>
              t.log == s.log && loaded && Reports in Marks(s.log)
    decreases n
  {
    if n > 0 {
      StoppedIsIdle(s, loaded, n - 1);
      StopsOnlyAtBoot(Iterate(Ticker(), Apply(s, Boot(loaded)), n - 1));
    }
  }

  lemma StopsOnlyAtBoot(s: System)
    ensures var t := Ticker()(s);
            t.process.Some? && t.process.value.phase.ShortCircuited? ==>
              s.process.Some? && s.process.value.phase.ShortCircuited? && t.log == s.log
  {
  }
}
