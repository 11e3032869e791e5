/** What the stage chain promises over every history of starts, steps and crashes, and exactly
    when a silent failure costs something. */
module StageProofs {
  import opened StageChain
  import opened Traces
  import opened Wrappers

  // ---------------------------------------------------------------- histories

  lemma MarksAt(log: seq<Tried>, s: Stage)
    ensures s in Marks(log) <==> exists i :: 0 <= i < |log| && Arrived(log[i], s)
  {
    if i :| 0 <= i < |log| && Arrived(log[i], s) {
      assert log[i] in log;
    }
  }

  lemma MarksSnoc(log: seq<Tried>, t: Tried)
    ensures Marks(log + [t]) == Marks(log) + if t.ok && t.write.Checkpointed? then {t.write.stage} else {}
  {
  }

  /** What one step does to the log: nothing, or one more entry. */
  lemma StepLog(log: seq<Tried>, r: Run, met: Conditions)
    ensures var log' := Step(log, r, met).0;
            log' == log || (|log'| == |log| + 1 && log' == log + [log'[|log|]])
  {
  }

  lemma ExecuteMore(trace: seq<Event>, e: Event)
    ensures Execute(trace + [e]) == Apply(Execute(trace), e)
  {
    assert (trace + [e])[..|trace|] == trace;
  }

  // ---------------------------------------------------------------- order of writes

  /** What directly precedes an attempt to checkpoint a stage, at place `n` of the log. */
  ghost predicate TailFor(log: seq<Tried>, n: nat, s: Stage)
    requires n <= |log|
  {
    if s == Reports then
      && n >= 3
      && log[n - 3] == Tried(FinalPersist, true)
      && log[n - 2].write == CoverageFlushed
      && log[n - 1] == Tried(ReportsWritten, true)
    else n >= 1 && log[n - 1].write == Flushed(s)
  }

  ghost predicate Ordered(log: seq<Tried>) {
    forall i :: 0 <= i < |log| && log[i].write.Checkpointed? ==> TailFor(log, i, log[i].write.stage)
  }

  ghost predicate Poised(log: seq<Tried>, p: Phase) {
    match p
    case Mark(i) => i < |STAGES| ==> TailFor(log, |log|, STAGES[i])
    case Flush(i) => i < |STAGES| ==> STAGES[i] != Reports
    case Coverage => |log| >= 1 && log[|log| - 1] == Tried(FinalPersist, true)
    case WriteReports =>
      |log| >= 2 && log[|log| - 2] == Tried(FinalPersist, true) && log[|log| - 1].write == CoverageFlushed
    case _ => true
  }

  ghost predicate Safe(s: System) {
    && Ordered(s.log)
    && (s.process.Some? ==>
          var r := s.process.value;
          && Poised(s.log, r.phase)
          && r.base <= |s.log|
          && r.completed <= Marks(s.log[..r.base])
          && r.skipped <= r.completed)
  }

  lemma OrderedSnoc(log: seq<Tried>, t: Tried)
    requires Ordered(log) && (t.write.Checkpointed? ==> TailFor(log, |log|, t.write.stage))
    ensures Ordered(log + [t])
  {
    var more := log + [t];
    forall i | 0 <= i < |more| && more[i].write.Checkpointed? ensures TailFor(more, i, more[i].write.stage) {
      assert i < |log| ==> TailFor(log, i, log[i].write.stage);
    }
  }

  lemma StepPoised(log: seq<Tried>, r: Run, met: Conditions)
    requires Poised(log, r.phase)
    ensures var (log', r') := Step(log, r, met); Poised(log', r'.phase)
  {
    match r.phase
    case Enter(i) =>
    case Flush(i) =>
    case Mark(i) =>
    case _ =>
  }

  lemma StepOrdered(log: seq<Tried>, r: Run, met: Conditions)
    requires Ordered(log) && Poised(log, r.phase)
    ensures Ordered(Step(log, r, met).0)
  {
    var log' := Step(log, r, met).0;
    StepLog(log, r, met);
    if |log'| > |log| {
      OrderedSnoc(log, log'[|log|]);
    }
  }

  lemma StepKeepsBase(log: seq<Tried>, r: Run, met: Conditions)
    requires r.base <= |log|
    ensures var (log', r') := Step(log, r, met);
            && r'.base == r.base <= |log'|
            && log'[..r.base] == log[..r.base]
            && r'.completed == r.completed
            && (r.skipped <= r.completed ==> r'.skipped <= r'.completed)
  {
    StepLog(log, r, met);
  }

  lemma ApplySafe(s: System, e: Event)
    requires Safe(s)
    ensures Safe(Apply(s, e))
  {
    match e
    case Boot(_) => assert s.log[..|s.log|] == s.log;
    case Kill =>
    case Tick(met) =>
      if s.process.Some? {
        StepPoised(s.log, s.process.value, met);
        StepOrdered(s.log, s.process.value, met);
        StepKeepsBase(s.log, s.process.value, met);
      }
  }

  lemma HistorySafe(trace: seq<Event>)
    ensures Safe(Execute(trace))
  {
    forall s, e | Safe(s) ensures Safe(Transition()(s, e)) {
      ApplySafe(s, e);
    }
    FoldInvariant(Transition(), s => Safe(s), _ => true, FRESH, trace);
  }

  /** The order of attempts, over every history and whatever fails: a checkpoint of a stage directly
      follows that process's attempt to flush it (that of the reports stage the final persist, the
      coverage flush and the reports), and a stage is skipped only if an earlier run's checkpoint of
      it reached the table. Whether the flush committed is another matter: see `BackedExactlyWhen`. */
  lemma SkippedOnlyIfCheckpointed(trace: seq<Event>)
    ensures var s := Execute(trace);
            && Ordered(s.log)
            && (s.process.Some? ==>
                  var r := s.process.value;
                  r.base <= |s.log| && r.skipped <= Marks(s.log[..r.base]))
  {
    HistorySafe(trace);
  }

  // ---------------------------------------------------------------- loaded histories

  ghost function Reached(p: Phase): nat {
    match p
    case Enter(i) => i
    case Flush(i) => i
    case Mark(i) => i
    case Persist | Coverage | WriteReports => 7
    case Finished => 8
    case Discover | NothingToScan | ShortCircuited => 0
  }

  ghost predicate Loads(e: Event) {
    e.Boot? ==> e.loaded
  }

  /** A checkpoint row of a stage other than inventory is never followed by another one, or by
      another flush of that stage. */
  ghost predicate OnceEach(log: seq<Tried>) {
    forall i, j, s :: 0 <= i < j < |log| && s != Inventory && Arrived(log[i], s) ==> !Again(log[j], s)
  }

  ghost predicate Again(t: Tried, s: Stage) {
    Arrived(t, s) || t.write == Flushed(s)
  }

  /** Stages at or past where the run stands are marked only if it loaded them. */
  ghost predicate Ahead(log: seq<Tried>, r: Run) {
    && (r.phase.ShortCircuited? <==> Reports in r.completed)
    && (forall i :: Reached(r.phase) <= i < |STAGES| && !r.phase.ShortCircuited? && STAGES[i] in Marks(log) ==>
          STAGES[i] in r.completed)
    && (r.phase.Flush? || r.phase.Mark? ==> r.phase.at < |STAGES|)
    && (r.phase.Flush? || r.phase.Mark? ==> STAGES[r.phase.at] == Inventory || STAGES[r.phase.at] !in r.completed)
  }

  ghost predicate Once(s: System) {
    OnceEach(s.log) && (s.process.Some? ==> Ahead(s.log, s.process.value))
  }

  lemma OnceSnoc(log: seq<Tried>, t: Tried)
    requires OnceEach(log)
    requires forall s :: s != Inventory && s in Marks(log) ==> !Again(t, s)
    ensures OnceEach(log + [t])
  {
    var more := log + [t];
    forall i, j, s | 0 <= i < j < |more| && s != Inventory && Arrived(more[i], s)
      ensures !Again(more[j], s)
    {
      assert more[i] == log[i];
      MarksAt(log, s);
    }
  }

  /** Only the checkpoint steps mark a stage. */
  lemma NoMark(log: seq<Tried>, r: Run, met: Conditions)
    requires !r.phase.Mark?
    ensures Marks(Step(log, r, met).0) == Marks(log)
  {
    var log' := Step(log, r, met).0;
    StepLog(log, r, met);
    if |log'| > |log| {
      assert !log'[|log|].write.Checkpointed?;
      MarksSnoc(log, log'[|log|]);
    }
  }

  lemma MarkAhead(log: seq<Tried>, r: Run, met: Conditions)
    requires Ahead(log, r) && r.phase.Mark?
    ensures var (log', r') := Step(log, r, met); Ahead(log', r')
  {
    var log' := Step(log, r, met).0;
    StepLog(log, r, met);
    MarksSnoc(log, log'[|log|]);
  }

  lemma StepAhead(log: seq<Tried>, r: Run, met: Conditions)
    requires Ahead(log, r)
    ensures var (log', r') := Step(log, r, met); Ahead(log', r')
  {
    if r.phase.Mark? {
      MarkAhead(log, r, met);
    } else {
      NoMark(log, r, met);
    }
  }

  lemma StepOnceEach(log: seq<Tried>, r: Run, met: Conditions)
    requires OnceEach(log) && Ahead(log, r)
    ensures OnceEach(Step(log, r, met).0)
  {
    var log' := Step(log, r, met).0;
    StepLog(log, r, met);
    if |log'| > |log| {
      OnceSnoc(log, log'[|log|]);
    }
  }

  lemma HistoryOnce(trace: seq<Event>)
    requires forall e :: e in trace ==> Loads(e)
    ensures Once(Execute(trace))
  {
    forall s, e | Once(s) && Loads(e) ensures Once(Transition()(s, e)) {
      if e.Tick? && s.process.Some? {
        StepAhead(s.log, s.process.value, e.met);
        StepOnceEach(s.log, s.process.value, e.met);
      }
    }
    FoldInvariant(Transition(), s => Once(s), e => Loads(e), FRESH, trace);
  }

  /** As long as every resume can load its checkpoints, no stage but inventory is ever
      checkpointed twice, or flushed again after its checkpoint, whatever crashes in between. */
  lemma NoStageTwice(trace: seq<Event>)
    requires forall e :: e in trace ==> Loads(e)
    ensures OnceEach(Execute(trace).log)
  {
    HistoryOnce(trace);
  }

  // ---------------------------------------------------------------- rows behind a checkpoint

  /** Some flush of the stage committed before place `n`. */
  ghost predicate Committed(log: seq<Tried>, n: nat, s: Stage)
    requires n <= |log|
  {
    exists j :: 0 <= j < n && log[j] == Tried(Flushed(s), true)
  }

  /** The flush at `j` was cut off: no checkpoint row followed it, because the process died or the
      checkpoint was lost. */
  ghost predicate CutOff(log: seq<Tried>, j: nat, s: Stage) {
    j + 1 < |log| ==> !Arrived(log[j + 1], s)
  }

  lemma NotTwice(log: seq<Tried>, j: nat, i: nat, s: Stage)
    requires OnceEach(log) && s != Inventory && j < i < |log| && Arrived(log[i], s)
    ensures !Arrived(log[j], s)
  {
    assert Again(log[i], s);
  }

  /** A checkpointed stage has a committed flush before its checkpoint, of what its flush lists,
      exactly when the flush right before that checkpoint committed, or an earlier one did and was
      cut off before its own checkpoint. What no flush lists is followed in `StageRows`. */
  lemma BackedExactlyWhen(trace: seq<Event>, i: nat, s: Stage)
    requires forall e :: e in trace ==> Loads(e)
    requires s != Inventory && s != Reports
    requires var log := Execute(trace).log; i < |log| && Arrived(log[i], s)
    ensures var log := Execute(trace).log;
            && i >= 1
            && log[i - 1].write == Flushed(s)
            && (Committed(log, i, s) <==>
                  || log[i - 1].ok
                  || exists j :: 0 <= j < i - 1 && log[j] == Tried(Flushed(s), true) && CutOff(log, j, s))
  {
    HistorySafe(trace);
    HistoryOnce(trace);
    var log := Execute(trace).log;
    assert TailFor(log, i, s);
    assert log[i - 1] == Tried(Flushed(s), log[i - 1].ok);
    forall j | 0 <= j < i - 1 ensures CutOff(log, j, s) {
      NotTwice(log, j + 1, i, s);
    }
  }

  /** In particular, where the stage was flushed only once, what its flush lists was committed
      exactly when the flush right before the checkpoint was. */
  lemma BackedByItsOwnFlush(trace: seq<Event>, i: nat, s: Stage)
    requires forall e :: e in trace ==> Loads(e)
    requires s != Inventory && s != Reports
    requires var log := Execute(trace).log;
             && i < |log| && Arrived(log[i], s)
             && forall j :: 0 <= j < i - 1 ==> log[j].write != Flushed(s)
    ensures var log := Execute(trace).log; i >= 1 && (Committed(log, i, s) <==> log[i - 1] == Tried(Flushed(s), true))
  {
    BackedExactlyWhen(trace, i, s);
  }
}
