/** When the checkpointed stages are a prefix of the chain: the exact condition on which
    checkpoint writes were lost. */
module StagePrefix {
  import opened StageChain
  import opened StageProofs
  import opened Traces
  import opened Wrappers

  /** Every stage up to position `n` is checkpointed. */
  ghost predicate MarkedBelow(log: seq<Tried>, n: nat) {
    forall p :: 0 <= p < n && p < |STAGES| ==> STAGES[p] in Marks(log)
  }

  /** The checkpointed stages are a prefix of the chain. */
  ghost predicate Prefix(log: seq<Tried>) {
    forall s :: s in Marks(log) ==> MarkedBelow(log, Position(s))
  }

  /** The checkpoint of the stage was attempted between two places of the log. */
  ghost predicate Attempted(log: seq<Tried>, from: nat, to: nat, s: Stage)
    requires to <= |log|
  {
    exists i :: from <= i < to && IsMark(log[i], s)
  }

  /** No stage's checkpoint is attempted before those of all stages ahead of it. */
  ghost predicate InTurn(log: seq<Tried>) {
    forall j, p :: 0 <= j < |log| && log[j].write.Checkpointed? && 0 <= p < Position(log[j].write.stage) ==>
      Attempted(log, 0, j, STAGES[p])
  }

  ghost predicate AttemptedBelow(log: seq<Tried>, n: nat) {
    forall p :: 0 <= p < n && p < |STAGES| ==> Attempted(log, 0, |log|, STAGES[p])
  }

  ghost predicate Turns(s: System) {
    && InTurn(s.log)
    && (s.process.Some? ==>
          AttemptedBelow(s.log, Reached(s.process.value.phase)) && s.process.value.completed <= Marks(s.log))
  }

  lemma AttemptedGrows(log: seq<Tried>, t: Tried, from: nat, to: nat, s: Stage)
    requires to <= |log| && Attempted(log, from, to, s)
    ensures Attempted(log + [t], from, to, s) && Attempted(log + [t], from, |log| + 1, s)
  {
    var i :| from <= i < to && IsMark(log[i], s);
    assert IsMark((log + [t])[i], s);
  }

  lemma InTurnSnoc(log: seq<Tried>, t: Tried)
    requires InTurn(log) && (t.write.Checkpointed? ==> AttemptedBelow(log, Position(t.write.stage)))
    ensures InTurn(log + [t])
  {
    var more := log + [t];
    forall j, p | 0 <= j < |more| && more[j].write.Checkpointed? && 0 <= p < Position(more[j].write.stage)
      ensures Attempted(more, 0, j, STAGES[p])
    {
      AttemptedGrows(log, t, 0, j, STAGES[p]);
    }
  }

  lemma MarkedIsAttempted(log: seq<Tried>, s: Stage)
    requires s in Marks(log)
    ensures Attempted(log, 0, |log|, s)
  {
    MarksAt(log, s);
    var i :| 0 <= i < |log| && Arrived(log[i], s);
    assert IsMark(log[i], s);
  }

  lemma AttemptedBelowSnoc(log: seq<Tried>, t: Tried, n: nat)
    requires AttemptedBelow(log, n)
    ensures AttemptedBelow(log + [t], n)
    ensures n < |STAGES| && IsMark(t, STAGES[n]) ==> AttemptedBelow(log + [t], n + 1)
  {
    forall p | 0 <= p < n && p < |STAGES| ensures Attempted(log + [t], 0, |log| + 1, STAGES[p]) {
      AttemptedGrows(log, t, 0, |log|, STAGES[p]);
    }
    if n < |STAGES| && IsMark(t, STAGES[n]) {
      assert IsMark((log + [t])[|log|], STAGES[n]);
    }
  }

  lemma MarkInTurn(log: seq<Tried>, r: Run, met: Conditions)
    requires InTurn(log) && AttemptedBelow(log, Reached(r.phase)) && r.phase.Mark?
    ensures InTurn(Step(log, r, met).0)
  {
    var i := r.phase.at;
    if i < |STAGES| {
      PositionOf(i);
      InTurnSnoc(log, Step(log, r, met).0[|log|]);
    }
  }

  lemma StepInTurn(log: seq<Tried>, r: Run, met: Conditions)
    requires InTurn(log) && AttemptedBelow(log, Reached(r.phase))
    ensures InTurn(Step(log, r, met).0)
  {
    var log' := Step(log, r, met).0;
    StepLog(log, r, met);
    if r.phase.Mark? {
      MarkInTurn(log, r, met);
    } else if |log'| > |log| {
      assert !log'[|log|].write.Checkpointed?;
      InTurnSnoc(log, log'[|log|]);
    }
  }

  lemma StepReaches(log: seq<Tried>, r: Run, met: Conditions)
    requires AttemptedBelow(log, Reached(r.phase)) && r.completed <= Marks(log)
    ensures var (log', r') := Step(log, r, met);
            AttemptedBelow(log', Reached(r'.phase)) && r'.completed <= Marks(log')
  {
    var (log', r') := Step(log, r, met);
    StepLog(log, r, met);
    if |log'| > |log| {
      MarksSnoc(log, log'[|log|]);
      AttemptedBelowSnoc(log, log'[|log|], Reached(r.phase));
    }
    if r.phase.Enter? && r.phase.at < |STAGES| && STAGES[r.phase.at] in r.completed {
      MarkedIsAttempted(log, STAGES[r.phase.at]);
    }
  }

  lemma TurnsOf(log: seq<Tried>, r: Run)
    requires InTurn(log) && AttemptedBelow(log, Reached(r.phase)) && r.completed <= Marks(log)
    ensures Turns(System(log, Some(r)))
  {
  }

  lemma TickIs(s: System, met: Conditions)
    requires s.process.Some?
    ensures var (log', r') := Step(s.log, s.process.value, met);
            Apply(s, Tick(met)) == s.(process := None) || Apply(s, Tick(met)) == System(log', Some(r'))
  {
  }

  lemma TickTurns(s: System, met: Conditions)
    requires Turns(s) && s.process.Some?
    ensures Turns(Apply(s, Tick(met)))
  {
    var (log', r') := Step(s.log, s.process.value, met);
    StepInTurn(s.log, s.process.value, met);
    StepReaches(s.log, s.process.value, met);
    TurnsOf(log', r');
    TickIs(s, met);
  }

  lemma ApplyTurns(s: System, e: Event)
    requires Turns(s)
    ensures Turns(Apply(s, e))
  {
    match e
    case Boot(_) =>
    case Kill =>
    case Tick(met) =>
      if s.process.Some? {
        TickTurns(s, met);
      }
  }

  lemma HistoryTurns(trace: seq<Event>)
    ensures Turns(Execute(trace))
  {
    forall s, e | Turns(s) ensures Turns(Transition()(s, e)) {
      ApplyTurns(s, e);
    }
    FoldInvariant(Transition(), s => Turns(s), _ => true, FRESH, trace);
  }

  // ---------------------------------------------------------------- the exact condition

  /** A checkpoint of a stage was lost, none ever arrived, and yet one of a later stage did
      arrive after the loss. */
  ghost predicate Overtaken(log: seq<Tried>, i: nat, j: nat) {
    && i < j < |log|
    && log[i].write.Checkpointed? && !log[i].ok
    && log[j].write.Checkpointed? && log[j].ok
    && Position(log[i].write.stage) < Position(log[j].write.stage)
    && (forall k :: 0 <= k < |log| ==> !Arrived(log[k], log[i].write.stage))
  }

  /** Over every history the checkpointed stages are a prefix of the chain if and only if no lost
      checkpoint, never made good, was overtaken by that of a later stage. */
  lemma PrefixExactlyWhen(trace: seq<Event>)
    ensures var log := Execute(trace).log; Prefix(log) <==> forall i, j :: !Overtaken(log, i, j)
  {
    HistoryTurns(trace);
    var log := Execute(trace).log;
    if !Prefix(log) {
      var t :| t in Marks(log) && !MarkedBelow(log, Position(t));
      var p :| 0 <= p < Position(t) && STAGES[p] !in Marks(log);
      GapIsOvertaken(log, t, p);
    }
    if i, j :| Overtaken(log, i, j) {
      OvertakenIsGap(log, i, j);
    }
  }

  lemma GapIsOvertaken(log: seq<Tried>, t: Stage, p: nat)
    requires InTurn(log) && t in Marks(log) && p < Position(t) && STAGES[p] !in Marks(log)
    ensures exists i, j :: Overtaken(log, i, j)
  {
    MarksAt(log, t);
    var j :| 0 <= j < |log| && Arrived(log[j], t);
    assert Attempted(log, 0, j, STAGES[p]);
    var i :| 0 <= i < j && IsMark(log[i], STAGES[p]);
    MarksAt(log, STAGES[p]);
    PositionOf(p);
    assert Overtaken(log, i, j);
  }

  lemma PositionOf(p: nat)
    requires p < |STAGES|
    ensures Position(STAGES[p]) == p
  {
  }

  lemma OvertakenIsGap(log: seq<Tried>, i: nat, j: nat)
    requires Overtaken(log, i, j)
    ensures !Prefix(log)
  {
    var s, t := log[i].write.stage, log[j].write.stage;
    MarksAt(log, s);
    MarksAt(log, t);
    assert Arrived(log[j], t);
    assert STAGES[Position(s)] !in Marks(log);
    assert !MarkedBelow(log, Position(t));
  }

  ghost predicate Durable(e: Event) {
    e.Tick? ==> e.met.written
  }

  ghost predicate NothingLost(s: System) {
    forall i :: 0 <= i < |s.log| && s.log[i].write.Checkpointed? ==> s.log[i].ok
  }

  lemma StepLosesNothing(log: seq<Tried>, r: Run, met: Conditions)
    requires met.written && forall i :: 0 <= i < |log| && log[i].write.Checkpointed? ==> log[i].ok
    ensures var log' := Step(log, r, met).0; forall i :: 0 <= i < |log'| && log'[i].write.Checkpointed? ==> log'[i].ok
  {
  }

  /** In particular it always is while checkpoint writes arrive, whatever crashes and whatever
      else fails. */
  lemma CheckpointsFormPrefix(trace: seq<Event>)
    requires forall e :: e in trace ==> Durable(e)
    ensures Prefix(Execute(trace).log)
  {
    forall s, e | NothingLost(s) && Durable(e) ensures NothingLost(Transition()(s, e)) {
      if e.Tick? && s.process.Some? {
        StepLosesNothing(s.log, s.process.value, e.met);
      }
    }
    FoldInvariant(Transition(), s => NothingLost(s), e => Durable(e), FRESH, trace);
    PrefixExactlyWhen(trace);
  }

  /** One step breaks the prefix exactly when a checkpoint arrives while one before it is missing. */
  lemma BrokenExactlyBy(log: seq<Tried>, r: Run, met: Conditions)
    requires Prefix(log)
    ensures Prefix(Step(log, r, met).0) <==>
              !(r.phase.Mark? && r.phase.at < |STAGES| && met.written && !MarkedBelow(log, r.phase.at))
  {
    var log' := Step(log, r, met).0;
    StepLog(log, r, met);
    if |log'| > |log| {
      MarksSnoc(log, log'[|log|]);
    }
    if r.phase.Mark? && r.phase.at < |STAGES| {
      PositionOf(r.phase.at);
      MarkAddsOne(log, log', STAGES[r.phase.at], met.written);
    } else {
      assert Marks(log') == Marks(log);
    }
  }

  lemma MarkAddsOne(log: seq<Tried>, log': seq<Tried>, s: Stage, written: bool)
    requires Prefix(log) && Marks(log') == Marks(log) + if written then {s} else {}
    ensures Prefix(log') <==> !(written && !MarkedBelow(log, Position(s)))
  {
    forall p | 0 <= p < Position(s) ensures STAGES[p] in Marks(log') <==> STAGES[p] in Marks(log) {
      PositionOf(p);
    }
    if written && !MarkedBelow(log, Position(s)) {
      assert s in Marks(log') && !MarkedBelow(log', Position(s));
    } else {
      forall t | t in Marks(log') ensures MarkedBelow(log', Position(t)) {
        assert t in Marks(log) ==> MarkedBelow(log, Position(t));
      }
    }
  }

  // ---------------------------------------------------------------- one run

  /** The checkpoints a run attempts, from `base` on: one after the other along the chain, and
      none skipped but those in the table before. */
  ghost predicate RunInTurn(log: seq<Tried>, base: nat) {
    && base <= |log|
    && (forall i, j :: base <= i < j < |log| && log[i].write.Checkpointed? && log[j].write.Checkpointed? ==>
          Position(log[i].write.stage) < Position(log[j].write.stage))
    && (forall j, p :: base <= j < |log| && log[j].write.Checkpointed? && 0 <= p < Position(log[j].write.stage) ==>
          STAGES[p] in Marks(log[..base]) || Attempted(log, base, j, STAGES[p]))
  }

  ghost predicate RunReached(log: seq<Tried>, base: nat, n: nat) {
    && base <= |log|
    && (forall p :: 0 <= p < n && p < |STAGES| ==> STAGES[p] in Marks(log[..base]) || Attempted(log, base, |log|, STAGES[p]))
    && (forall i :: base <= i < |log| && log[i].write.Checkpointed? ==> Position(log[i].write.stage) < n)
  }

  ghost predicate RunTurns(s: System, base: nat) {
    && RunInTurn(s.log, base)
    && (s.process.Some? ==>
          var r := s.process.value;
          RunReached(s.log, base, Reached(r.phase)) && r.completed <= Marks(s.log[..base]))
  }

  lemma RunInTurnSnoc(log: seq<Tried>, base: nat, t: Tried, n: nat)
    requires RunInTurn(log, base) && RunReached(log, base, n)
    requires t.write.Checkpointed? ==> Position(t.write.stage) == n
    ensures RunInTurn(log + [t], base)
  {
    var more := log + [t];
    assert more[..base] == log[..base];
    forall j, p | base <= j < |more| && more[j].write.Checkpointed? && 0 <= p < Position(more[j].write.stage)
      ensures STAGES[p] in Marks(more[..base]) || Attempted(more, base, j, STAGES[p])
    {
      if Attempted(log, base, j, STAGES[p]) {
        AttemptedGrows(log, t, base, j, STAGES[p]);
      }
    }
  }

  lemma RunReachedSnoc(log: seq<Tried>, base: nat, t: Tried, n: nat)
    requires RunReached(log, base, n)
    requires t.write.Checkpointed? ==> Position(t.write.stage) == n
    ensures RunReached(log + [t], base, if t.write.Checkpointed? then n + 1 else n)
  {
    var more := log + [t];
    assert more[..base] == log[..base];
    forall p | 0 <= p < n && p < |STAGES|
      ensures STAGES[p] in Marks(more[..base]) || Attempted(more, base, |more|, STAGES[p])
    {
      if Attempted(log, base, |log|, STAGES[p]) {
        AttemptedGrows(log, t, base, |log|, STAGES[p]);
      }
    }
    if t.write.Checkpointed? && n < |STAGES| {
      assert IsMark(more[|log|], STAGES[n]);
    }
  }

  lemma RunReachedSkip(log: seq<Tried>, base: nat, n: nat)
    requires RunReached(log, base, n) && n < |STAGES| && STAGES[n] in Marks(log[..base])
    ensures RunReached(log, base, n + 1)
  {
  }

  lemma RunReachedEnd(log: seq<Tried>, base: nat, n: nat)
    requires RunReached(log, base, n) && n >= |STAGES|
    ensures RunReached(log, base, 8)
  {
  }

  lemma StepRunReached(log: seq<Tried>, r: Run, met: Conditions, base: nat)
    requires RunReached(log, base, Reached(r.phase)) && r.completed <= Marks(log[..base])
    ensures var (log', r') := Step(log, r, met); RunReached(log', base, Reached(r'.phase))
  {
    match r.phase
    case Discover =>
      RunReachedSnoc(log, base, Tried(BatchRow, met.written), 0);
      RunReachedSnoc(log, base, Tried(DiscoveryRow, met.written), 0);
    case Enter(i) => EnterRunReached(log, r, met, base, i);
    case Flush(i) =>
      if i < |STAGES| {
        RunReachedSnoc(log, base, Tried(Flushed(STAGES[i]), met.flushed), i);
      }
    case Mark(i) => MarkRunReached(log, r, met, base, i);
    case Persist => RunReachedSnoc(log, base, Tried(FinalPersist, true), 7);
    case Coverage => RunReachedSnoc(log, base, Tried(CoverageFlushed, met.flushed), 7);
    case WriteReports => RunReachedSnoc(log, base, Tried(ReportsWritten, true), 7);
    case _ =>
  }

  lemma EnterRunReached(log: seq<Tried>, r: Run, met: Conditions, base: nat, i: nat)
    requires r.phase == Enter(i) && RunReached(log, base, i) && r.completed <= Marks(log[..base])
    ensures var (log', r') := Step(log, r, met); RunReached(log', base, Reached(r'.phase))
  {
    if i >= |STAGES| {
      RunReachedEnd(log, base, i);
    } else {
      PositionOf(i);
      if STAGES[i] in r.completed {
        RunReachedSkip(log, base, i);
      }
    }
  }

  lemma MarkRunReached(log: seq<Tried>, r: Run, met: Conditions, base: nat, i: nat)
    requires r.phase == Mark(i) && RunReached(log, base, i)
    ensures var (log', r') := Step(log, r, met); RunReached(log', base, Reached(r'.phase))
  {
    if i < |STAGES| {
      PositionOf(i);
      RunReachedSnoc(log, base, Step(log, r, met).0[|log|], i);
    }
  }

  lemma MarkRunInTurn(log: seq<Tried>, r: Run, met: Conditions, base: nat)
    requires RunInTurn(log, base) && RunReached(log, base, Reached(r.phase)) && r.phase.Mark?
    ensures RunInTurn(Step(log, r, met).0, base)
  {
    var i := r.phase.at;
    if i < |STAGES| {
      PositionOf(i);
      RunInTurnSnoc(log, base, Step(log, r, met).0[|log|], i);
    }
  }

  lemma StepRunInTurn(log: seq<Tried>, r: Run, met: Conditions, base: nat)
    requires RunInTurn(log, base) && RunReached(log, base, Reached(r.phase))
    ensures RunInTurn(Step(log, r, met).0, base)
  {
    var log' := Step(log, r, met).0;
    StepLog(log, r, met);
    if r.phase.Mark? {
      MarkRunInTurn(log, r, met, base);
    } else if |log'| > |log| {
      assert !log'[|log|].write.Checkpointed?;
      RunInTurnSnoc(log, base, log'[|log|], Reached(r.phase));
    }
  }

  ghost predicate RunFrom(s: System, before: seq<Tried>) {
    && |before| <= |s.log| && s.log[..|before|] == before
    && RunTurns(s, |before|)
  }

  lemma TickRunFrom(s: System, before: seq<Tried>, met: Conditions)
    requires RunFrom(s, before)
    ensures RunFrom(Apply(s, Tick(met)), before)
  {
    if s.process.Some? {
      StepRunReached(s.log, s.process.value, met, |before|);
      StepRunInTurn(s.log, s.process.value, met, |before|);
      StepPast(s.log, s.process.value, met, |before|);
    }
  }

  lemma StepPast(log: seq<Tried>, r: Run, met: Conditions, base: nat)
    requires base <= |log|
    ensures var (log', r') := Step(log, r, met);
            base <= |log'| && log'[..base] == log[..base] && r'.completed == r.completed
  {
    StepLog(log, r, met);
  }

  lemma RunTurned(s: System, loaded: bool, ticks: seq<Event>)
    requires forall e :: e in ticks ==> e.Tick?
    ensures RunFrom(Fold(Transition(), Apply(s, Boot(loaded)), ticks), s.log)
  {
    assert s.log[..|s.log|] == s.log;
    forall x, e: Event | RunFrom(x, s.log) && e.Tick? ensures RunFrom(Transition()(x, e), s.log) {
      TickRunFrom(x, s.log, e.met);
    }
    FoldInvariant(Transition(), x => RunFrom(x, s.log), (e: Event) => e.Tick?, Apply(s, Boot(loaded)), ticks);
  }

  /** One run, from a table that is a prefix: it stays one if and only if no checkpoint arrived
      after the run had lost that of a stage the table did not have. */
  lemma RunKeepsPrefixExactlyWhen(s: System, loaded: bool, ticks: seq<Event>)
    requires Prefix(s.log) && forall e :: e in ticks ==> e.Tick?
    ensures var log := Fold(Transition(), Apply(s, Boot(loaded)), ticks).log;
            Prefix(log) <==> forall i, j :: !LostBefore(log, |s.log|, i, j)
  {
    RunTurned(s, loaded, ticks);
    var log := Fold(Transition(), Apply(s, Boot(loaded)), ticks).log;
    if !Prefix(log) {
      var t :| t in Marks(log) && !MarkedBelow(log, Position(t));
      var p :| 0 <= p < Position(t) && STAGES[p] !in Marks(log);
      RunGap(log, |s.log|, t, p);
    }
    if i, j :| LostBefore(log, |s.log|, i, j) {
      RunLoss(log, |s.log|, i, j);
    }
  }

  /** At `i` the run lost the checkpoint of a stage not in the table at `base`; at `j` one arrived. */
  ghost predicate LostBefore(log: seq<Tried>, base: nat, i: nat, j: nat) {
    && base <= i < j < |log|
    && log[i].write.Checkpointed? && !log[i].ok && log[i].write.stage !in Marks(log[..base])
    && log[j].write.Checkpointed? && log[j].ok
  }

  lemma MarksOfPart(log: seq<Tried>, base: nat, s: Stage)
    requires base <= |log|
    ensures s in Marks(log) <==> s in Marks(log[..base]) || exists k :: base <= k < |log| && Arrived(log[k], s)
  {
    MarksAt(log, s);
    MarksAt(log[..base], s);
    if s in Marks(log[..base]) {
      var k :| 0 <= k < base && Arrived(log[..base][k], s);
      assert Arrived(log[k], s);
    }
    if s in Marks(log) {
      var k :| 0 <= k < |log| && Arrived(log[k], s);
      assert k < base ==> Arrived(log[..base][k], s);
    }
  }

  lemma PrefixHas(log: seq<Tried>, t: Stage, p: nat)
    requires Prefix(log) && t in Marks(log) && p < Position(t)
    ensures STAGES[p] in Marks(log)
  {
    assert MarkedBelow(log, Position(t));
  }

  lemma RunGap(log: seq<Tried>, base: nat, t: Stage, p: nat)
    requires RunInTurn(log, base) && Prefix(log[..base])
    requires t in Marks(log) && p < Position(t) && STAGES[p] !in Marks(log)
    ensures exists i, j :: LostBefore(log, base, i, j)
  {
    MarksOfPart(log, base, t);
    MarksOfPart(log, base, STAGES[p]);
    if t in Marks(log[..base]) {
      PrefixHas(log[..base], t, p);
    } else {
      var j :| base <= j < |log| && Arrived(log[j], t);
      assert Attempted(log, base, j, STAGES[p]);
      var i :| base <= i < j && IsMark(log[i], STAGES[p]);
      assert !Arrived(log[i], STAGES[p]);
      assert LostBefore(log, base, i, j);
    }
  }

  lemma RunLoss(log: seq<Tried>, base: nat, i: nat, j: nat)
    requires RunInTurn(log, base) && LostBefore(log, base, i, j)
    ensures !Prefix(log)
  {
    var s, t := log[i].write.stage, log[j].write.stage;
    MarksAt(log, t);
    assert Arrived(log[j], t);
    MarksOfPart(log, base, s);
    forall k | base <= k < |log| ensures !Arrived(log[k], s) {
      assert i < k && log[k].write.Checkpointed? ==> Position(s) < Position(log[k].write.stage);
      assert k < i && log[k].write.Checkpointed? ==> Position(log[k].write.stage) < Position(s);
    }
    assert STAGES[Position(s)] !in Marks(log);
    assert !MarkedBelow(log, Position(t));
  }

  // ---------------------------------------------------------------- one lost write

  const CALM: Conditions := Conditions(StageDone, true, true, false, true, true, true)

  /** A first run in which nothing fails but the checkpoint of the inventory stage, as far as the
      checkpoint of the next stage. */
  function LossyTrace(): seq<Event> {
    [Boot(true), Tick(CALM), Tick(CALM), Tick(CALM), Tick(CALM.(written := false)), Tick(CALM), Tick(CALM), Tick(CALM)]
  }

  lemma ExecuteTick(trace: seq<Event>, s: System, met: Conditions)
    requires Execute(trace) == s
    ensures Execute(trace + [Tick(met)]) == Apply(s, Tick(met))
  {
    ExecuteMore(trace, Tick(met));
  }

  lemma ExecuteBoot()
    ensures Execute([Boot(true)]) == System([], Some(Run({}, 0, Discover, {})))
  {
    ExecuteMore([], Boot(true));
    assert [] + [Boot(true)] == [Boot(true)];
    assert Execute([]) == FRESH;
    assert Marks(FRESH.log) == {};
  }

  /** One lost checkpoint write is enough to break the prefix: the fifth event of this history is
      the only one that loses anything. */
  lemma LostWriteBreaksPrefix()
    ensures forall i :: 0 <= i < |LossyTrace()| ==> (Durable(LossyTrace()[i]) <==> i != 4)
    ensures !Prefix(Execute(LossyTrace()).log)
  {
    ExecuteBoot();
    var log := [Tried(DiscoveryRow, true)];
    var trace, s := [Boot(true)], System([], Some(Run({}, 0, Discover, {})));
    ExecuteTick(trace, s, CALM);
    trace, s := trace + [Tick(CALM)], System(log, Some(Run({}, 0, Enter(0), {})));
    ExecuteTick(trace, s, CALM);
    trace, s := trace + [Tick(CALM)], System(log, Some(Run({}, 0, Flush(0), {})));
    ExecuteTick(trace, s, CALM);
    log := log + [Tried(Flushed(Inventory), true)];
    trace, s := trace + [Tick(CALM)], System(log, Some(Run({}, 0, Mark(0), {})));
    ExecuteTick(trace, s, CALM.(written := false));
    log := log + [Tried(Checkpointed(Inventory, false), false)];
    trace, s := trace + [Tick(CALM.(written := false))], System(log, Some(Run({}, 0, Enter(1), {})));
    ExecuteTick(trace, s, CALM);
    trace, s := trace + [Tick(CALM)], System(log, Some(Run({}, 0, Flush(1), {})));
    ExecuteTick(trace, s, CALM);
    log := log + [Tried(Flushed(Tls), true)];
    trace, s := trace + [Tick(CALM)], System(log, Some(Run({}, 0, Mark(1), {})));
    ExecuteTick(trace, s, CALM);
    log := log + [Tried(Checkpointed(Tls, false), true)];
    assert trace + [Tick(CALM)] == LossyTrace();
    assert Execute(LossyTrace()).log == log;
    assert Overtaken(log, 2, 4);
    OvertakenIsGap(log, 2, 4);
  }
}
