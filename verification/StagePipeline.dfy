/** The chain as `main` runs it: one guarded block per stage over a table of checkpoint rows,
    each block one or more steps of the machine. */
module StagePipeline {
  import opened StageChain
  import opened Traces
  import opened Wrappers

  class RunTable {
    var log: seq<Tried>

    constructor ()
      ensures log == []
    {
      log := [];
    }

    /** An attempt to write, which may fail without anybody noticing. */
    method Try(w: Write, ok: bool)
      modifies this
      ensures log == old(log) + [Tried(w, ok)]
    {
      log := log + [Tried(w, ok)];
    }
  }

  ghost function At(table: RunTable, r: Run): System
    reads table
  {
    System(table.log, Some(r))
  }

  /** Some history of steps leads from one state to the other. */
  ghost predicate Reaches(s: System, t: System) {
    exists trace: seq<Event> :: (forall e :: e in trace ==> e.Tick?) && Fold(Transition(), s, trace) == t
  }

  lemma OneTick(s: System, met: Conditions)
    ensures Reaches(s, Apply(s, Tick(met)))
  {
    var trace := [Tick(met)];
    assert trace[..0] == [];
    assert Fold(Transition(), s, trace) == Apply(Fold(Transition(), s, trace[..0]), Tick(met));
  }

  lemma Then(s: System, mid: System, t: System)
    requires Reaches(s, mid) && Reaches(mid, t)
    ensures Reaches(s, t)
  {
    var a: seq<Event> :| (forall e :: e in a ==> e.Tick?) && Fold(Transition(), s, a) == mid;
    var b: seq<Event> :| (forall e :: e in b ==> e.Tick?) && Fold(Transition(), mid, b) == t;
    FoldAppend(Transition(), s, a, b);
    assert forall e :: e in a + b ==> e.Tick?;
  }

  /** The two attempts a stage makes: its flush, and its checkpoint whatever became of that. */
  function Attempts(s: Stage, met: Conditions): seq<Tried> {
    [Tried(Flushed(s), met.flushed), Tried(Checkpointed(s, met.partial && s != Inventory), met.written)]
  }

  /** What a stage leaves in the log of a run that loaded the stages in `completed`. */
  ghost function Rows(completed: set<Stage>, s: Stage, met: Conditions): seq<Tried> {
    if s in completed && s != Inventory then []
    else [Tried(Flushed(s), met.flushed), Tried(Checkpointed(s, s != Inventory && met.partial), met.written)]
  }

  lemma FlushReaches(log: seq<Tried>, s: Stage, met: Conditions, r: Run)
    requires r.phase == Flush(Position(s)) && s != Reports
    ensures Reaches(System(log, Some(r)),
                    System(log + [Tried(Flushed(s), met.flushed)], Some(r.(phase := Mark(Position(s))))))
  {
    OneTick(System(log, Some(r)), met);
  }

  lemma MarkReaches(log: seq<Tried>, s: Stage, met: Conditions, r: Run)
    requires r.phase == Mark(Position(s)) && s != Reports
    ensures Reaches(System(log, Some(r)),
                    System(log + [Tried(Checkpointed(s, met.partial && s != Inventory), met.written)],
                           Some(r.(phase := Enter(Position(s) + 1)))))
  {
    OneTick(System(log, Some(r)), met);
  }

  /** Flush a stage's endpoints, then write its checkpoint: partial if the stage has partial failures. */
  method FlushAndMark(table: RunTable, s: Stage, met: Conditions, ghost r: Run)
    requires r.phase == Flush(Position(s)) && s != Reports
    modifies table
    ensures Reaches(old(At(table, r)), At(table, r.(phase := Enter(Position(s) + 1))))
    ensures table.log == old(table.log) + Attempts(s, met)
  {
    ghost var start, marking := At(table, r), r.(phase := Mark(Position(s)));
    FlushReaches(table.log, s, met, r);
    table.Try(Flushed(s), met.flushed);
    ghost var mid := At(table, marking);
    MarkReaches(table.log, s, met, marking);
    table.Try(Checkpointed(s, met.partial && s != Inventory), met.written);
    Then(start, mid, At(table, r.(phase := Enter(Position(s) + 1))));
  }

  /** One guarded scanner stage: skipped when a prior run checkpointed it. */
  method ScannerStage(table: RunTable, completed: set<Stage>, s: Stage, met: Conditions, ghost r: Run)
    returns (ghost r': Run)
    requires s != Inventory && s != Reports && r.phase == Enter(Position(s)) && r.completed == completed
    modifies table
    ensures Reaches(old(At(table, r)), At(table, r'))
    ensures r' == r.(phase := Enter(Position(s) + 1), skipped := r.skipped + if s in completed then {s} else {})
    ensures table.log == old(table.log) + Rows(completed, s, met)
  {
    ghost var start := At(table, r);
    OneTick(start, met);
    r' := r.(phase := Enter(Position(s) + 1), skipped := r.skipped + if s in completed then {s} else {});
    if s !in completed {
      assert r.skipped + {} == r.skipped;
      ghost var flushing := r.(phase := Flush(Position(s)));
      ghost var mid := At(table, flushing);
      FlushAndMark(table, s, met, flushing);
      Then(start, mid, At(table, r'));
    }
  }

  /** The inventory stage: flushed and checkpointed on every run, fingerprinted only if not completed. */
  method InventoryStage(table: RunTable, completed: set<Stage>, met: Conditions, ghost r: Run)
    returns (fingerprinted: bool, ghost r': Run)
    requires r.phase == Enter(0) && r.completed == completed
    modifies table
    ensures Reaches(old(At(table, r)), At(table, r'))
    ensures r' == r.(phase := Enter(1), skipped := r.skipped + if Inventory in completed then {Inventory} else {})
    ensures fingerprinted <==> Inventory !in completed
    ensures table.log == old(table.log) + Rows(completed, Inventory, met)
  {
    ghost var start := At(table, r);
    OneTick(start, met);
    fingerprinted := Inventory !in completed;
    assert r.skipped + {} == r.skipped;
    ghost var entered := r.(phase := Flush(0), skipped := r.skipped + if Inventory in completed then {Inventory} else {});
    ghost var mid := At(table, entered);
    FlushAndMark(table, Inventory, met, entered);
    r' := entered.(phase := Enter(1));
    Then(start, mid, At(table, r'));
  }

  /** Final persist and coverage flush. */
  method PersistStage(table: RunTable, met: Conditions, ghost r: Run)
    requires r.phase == Enter(7)
    modifies table
    ensures Reaches(old(At(table, r)), At(table, r.(phase := WriteReports)))
    ensures table.log == old(table.log) + [Tried(FinalPersist, true), Tried(CoverageFlushed, met.flushed)]
  {
    ghost var s0 := At(table, r);
    OneTick(s0, met);
    ghost var s1 := At(table, r.(phase := Persist));
    table.Try(FinalPersist, true);
    OneTick(s1, met);
    ghost var s2 := At(table, r.(phase := Coverage));
    Then(s0, s1, s2);
    table.Try(CoverageFlushed, met.flushed);
    OneTick(s2, met);
    Then(s0, s2, At(table, r.(phase := WriteReports)));
  }

  /** Reports and their checkpoint. */
  method WriteReportsStage(table: RunTable, met: Conditions, ghost r: Run)
    requires r.phase == WriteReports && met.congruent
    modifies table
    ensures Reaches(old(At(table, r)), At(table, r.(phase := Enter(8))))
    ensures table.log == old(table.log) + [Tried(ReportsWritten, true), Tried(Checkpointed(Reports, false), met.written)]
  {
    ghost var s0 := At(table, r);
    OneTick(s0, met);
    table.Try(ReportsWritten, true);
    ghost var s1 := At(table, r.(phase := Mark(7)));
    table.Try(Checkpointed(Reports, false), met.written);
    OneTick(s1, met);
    Then(s0, s1, At(table, r.(phase := Enter(8))));
  }

  /** Final persist, coverage flush, reports, reports checkpoint. An incongruent headline ends the
      process before the reports. */
  method ReportsStage(table: RunTable, met: Conditions, ghost r: Run) returns (ghost end: Option<Run>)
    requires r.phase == Enter(7)
    modifies table
    ensures Reaches(old(At(table, r)), System(table.log, end))
    ensures end == if met.congruent then Some(r.(phase := Finished)) else None
    ensures table.log == old(table.log) + ReportsRows(met)
  {
    ghost var start := At(table, r);
    PersistStage(table, met, r);
    ghost var mid := At(table, r.(phase := WriteReports));
    if met.congruent {
      WriteReportsStage(table, met, r.(phase := WriteReports));
      end := Some(r.(phase := Finished));
      ghost var last := At(table, r.(phase := Enter(8)));
      OneTick(last, met);
      Then(mid, last, System(table.log, end));
    } else {
      end := None;
      OneTick(mid, met);
    }
    Then(start, mid, System(table.log, end));
  }

  ghost function ReportsRows(met: Conditions): seq<Tried> {
    [Tried(FinalPersist, true), Tried(CoverageFlushed, met.flushed)]
    + if met.congruent then [Tried(ReportsWritten, true), Tried(Checkpointed(Reports, false), met.written)] else []
  }

  /** The network-facing stages, one after the other. */
  method NetworkStages(table: RunTable, completed: set<Stage>, meets: Stage -> Conditions, ghost r: Run)
    returns (ghost r': Run)
    requires r.phase == Enter(1) && r.completed == completed
    modifies table
    ensures Reaches(old(At(table, r)), At(table, r'))
    ensures r' == r.(phase := Enter(4), skipped := r.skipped + completed * {Tls, Ssh, Api})
    ensures table.log == old(table.log) + Rows(completed, Tls, meets(Tls)) + Rows(completed, Ssh, meets(Ssh))
                         + Rows(completed, Api, meets(Api))
  {
    ghost var start := At(table, r);
    ghost var a := ScannerStage(table, completed, Tls, meets(Tls), r);
    ghost var mid := At(table, a);
    ghost var b := ScannerStage(table, completed, Ssh, meets(Ssh), a);
    Then(start, mid, At(table, b));
    mid := At(table, b);
    r' := ScannerStage(table, completed, Api, meets(Api), b);
    Then(start, mid, At(table, r'));
    assert r'.skipped == r.skipped + completed * {Tls, Ssh, Api};
  }

  /** The cloud, storage and messaging stages, one after the other. */
  method StorageStages(table: RunTable, completed: set<Stage>, meets: Stage -> Conditions, ghost r: Run)
    returns (ghost r': Run)
    requires r.phase == Enter(4) && r.completed == completed
    modifies table
    ensures Reaches(old(At(table, r)), At(table, r'))
    ensures r' == r.(phase := Enter(7), skipped := r.skipped + completed * {Identity, DataAtRest, BrokerEmail})
    ensures table.log == old(table.log) + Rows(completed, Identity, meets(Identity))
                         + Rows(completed, DataAtRest, meets(DataAtRest)) + Rows(completed, BrokerEmail, meets(BrokerEmail))
  {
    ghost var start := At(table, r);
    ghost var a := ScannerStage(table, completed, Identity, meets(Identity), r);
    ghost var mid := At(table, a);
    ghost var b := ScannerStage(table, completed, DataAtRest, meets(DataAtRest), a);
    Then(start, mid, At(table, b));
    mid := At(table, b);
    r' := ScannerStage(table, completed, BrokerEmail, meets(BrokerEmail), b);
    Then(start, mid, At(table, r'));
    assert r'.skipped == r.skipped + completed * {Identity, DataAtRest, BrokerEmail};
  }

  lemma SkippedAll(completed: set<Stage>, skipped: set<Stage>)
    requires Reports !in completed
    requires skipped == {} + (if Inventory in completed then {Inventory} else {})
                        + completed * {Tls, Ssh, Api} + completed * {Identity, DataAtRest, BrokerEmail}
    ensures skipped == completed
  {
    forall x: Stage ensures x in skipped <==> x in completed {
      match x
      case Inventory => case Tls => case Ssh => case Api => case Identity => case DataAtRest => case BrokerEmail =>
      case Reports =>
    }
  }

  /** The stages from the inventory on, up to the final persist. */
  method ScanStages(table: RunTable, completed: set<Stage>, meets: Stage -> Conditions, ghost r: Run)
    returns (ghost r': Run)
    requires Reports !in completed && r.completed == completed && r.phase == Enter(0) && r.skipped == {}
    modifies table
    ensures Reaches(old(At(table, r)), At(table, r'))
    ensures r' == r.(phase := Enter(7), skipped := completed)
    ensures table.log == old(table.log) + Rows(completed, Inventory, meets(Inventory))
                         + Rows(completed, Tls, meets(Tls)) + Rows(completed, Ssh, meets(Ssh))
                         + Rows(completed, Api, meets(Api)) + Rows(completed, Identity, meets(Identity))
                         + Rows(completed, DataAtRest, meets(DataAtRest)) + Rows(completed, BrokerEmail, meets(BrokerEmail))
  {
    ghost var start := At(table, r);
    var fingerprinted;
    ghost var a;
    fingerprinted, a := InventoryStage(table, completed, meets(Inventory), r);
    ghost var mid := At(table, a);
    ghost var n := NetworkStages(table, completed, meets, a);
    Then(start, mid, At(table, n));
    mid := At(table, n);
    r' := StorageStages(table, completed, meets, n);
    SkippedAll(completed, r'.skipped);
    Then(start, mid, At(table, r'));
  }

  ghost function DiscoveryRows(met: Conditions): seq<Tried> {
    if met.discovery.StageDone? then [Tried(DiscoveryRow, met.written)] else []
  }

  /** The last step of discovery. */
  method EndDiscovery(table: RunTable, first: Conditions, ghost r: Run) returns (ghost r': Run)
    requires !first.discovery.BatchDone? && r.phase.Discover?
    modifies table
    ensures Reaches(old(At(table, r)), At(table, r'))
    ensures r' == r.(phase := if first.targets then Enter(0) else NothingToScan)
    ensures table.log == old(table.log) + DiscoveryRows(first)
  {
    OneTick(At(table, r), first);
    if first.discovery.StageDone? {
      table.Try(DiscoveryRow, first.written);
    }
    r' := r.(phase := if first.targets then Enter(0) else NothingToScan);
  }

  /** From the inventory to the reports. */
  method ScanAndReport(table: RunTable, completed: set<Stage>, meets: Stage -> Conditions, ghost r: Run)
    returns (ghost end: Option<Run>)
    requires Reports !in completed && r.completed == completed && r.phase == Enter(0) && r.skipped == {}
    modifies table
    ensures Reaches(old(At(table, r)), System(table.log, end))
    ensures end == if meets(Reports).congruent then Some(r.(phase := Finished, skipped := completed)) else None
    ensures table.log == old(table.log) + Rows(completed, Inventory, meets(Inventory))
                         + Rows(completed, Tls, meets(Tls)) + Rows(completed, Ssh, meets(Ssh))
                         + Rows(completed, Api, meets(Api)) + Rows(completed, Identity, meets(Identity))
                         + Rows(completed, DataAtRest, meets(DataAtRest)) + Rows(completed, BrokerEmail, meets(BrokerEmail))
                         + ReportsRows(meets(Reports))
  {
    ghost var start := At(table, r);
    ghost var r' := ScanStages(table, completed, meets, r);
    ghost var mid := At(table, r');
    end := ReportsStage(table, meets(Reports), r');
    Then(start, mid, System(table.log, end));
  }

  /** A whole run from the end of discovery on, given what it loaded: a history of the machine. It
      stops at once if the reports are among that, after discovery if there is nothing to scan, and
      before the reports if the headline is incongruent. Otherwise exactly the loaded stages are
      skipped, and the log grows by the rows of discovery, of each stage in order, under the
      stage's own conditions, and of the reports. */
  method RunScan(table: RunTable, completed: set<Stage>, first: Conditions, meets: Stage -> Conditions, ghost base: nat)
    returns (ghost end: Option<Run>)
    requires !first.discovery.BatchDone?
    modifies table
    ensures var phase := if Reports in completed then ShortCircuited else Discover;
            Reaches(old(At(table, Run(completed, base, phase, {}))), System(table.log, end))
    ensures Reports in completed ==>
              table.log == old(table.log) && end == Some(Run(completed, base, ShortCircuited, {}))
    ensures Reports !in completed && !first.targets ==>
              table.log == old(table.log) + DiscoveryRows(first) && end == Some(Run(completed, base, NothingToScan, {}))
    ensures Reports !in completed && first.targets ==>
              && table.log == old(table.log) + DiscoveryRows(first)
                              + Rows(completed, Inventory, meets(Inventory))
                              + Rows(completed, Tls, meets(Tls)) + Rows(completed, Ssh, meets(Ssh))
                              + Rows(completed, Api, meets(Api)) + Rows(completed, Identity, meets(Identity))
                              + Rows(completed, DataAtRest, meets(DataAtRest)) + Rows(completed, BrokerEmail, meets(BrokerEmail))
                              + ReportsRows(meets(Reports))
              && end == if meets(Reports).congruent then Some(Run(completed, base, Finished, completed)) else None
  {
    if Reports in completed {
      end := Some(Run(completed, base, ShortCircuited, {}));
      NoTick(At(table, end.value));
      return;
    }
    ghost var start := At(table, Run(completed, base, Discover, {}));
    ghost var r := EndDiscovery(table, first, Run(completed, base, Discover, {}));
    if !first.targets {
      end := Some(r);
      return;
    }
    ghost var mid := At(table, r);
    end := ScanAndReport(table, completed, meets, r);
    Then(start, mid, System(table.log, end));
  }

  lemma NoTick(s: System)
    ensures Reaches(s, s)
  {
    var none: seq<Event> := [];
    assert Fold(Transition(), s, none) == s;
  }
}
