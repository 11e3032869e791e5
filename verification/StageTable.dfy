/** The rows counted along the stage chain are rows of the endpoint table: one history drives both. */
module StageTable {
  import opened StageChain
  import opened StagePrefix
  import opened StageRows
  import opened Traces
  import opened Wrappers
  import Rows = EndpointRows
  import Table = EndpointLives

  /** The endpoint that is followed, and the session key and time that its rows get. */
  datatype Subject = Subject(finding: nat, data: string, run: Option<string>, now: int)

  function Unsaved(u: Subject): Rows.Obj {
    Rows.Obj(None, None, None, u.finding, u.data)
  }

  /** Every object a process holds: what it found and what it reloaded, which has its key. */
  function All(n: nat): seq<nat> {
    seq(n, i => i)
  }

  function Finding(u: Subject, finds: bool): seq<Table.LifeEvent> {
    if finds then [Table.Within(Rows.Found(Unsaved(u)))] else []
  }

  function Flushing(x: Source, u: Subject, works: bool, n: nat): seq<Table.LifeEvent> {
    if StageFlushed(x) then [Table.Within(Rows.Flushed(All(n), u.run, u.now, works))] else []
  }

  function Persisting(x: Source, u: Subject, n: nat): seq<Table.LifeEvent> {
    if FinallyListed(x) then [Table.Persists(All(n), u.run, u.now)] else []
  }

  /** With what was found there is one object more. */
  function OneMore(finds: bool, n: nat): nat {
    if finds then n + 1 else n
  }

  /** What a step of the chain does to the table, for a process that holds `n` objects of the list. */
  function StepDoings(x: Source, u: Subject, r: Run, met: Conditions, n: nat): seq<Table.LifeEvent> {
    match r.phase
    case Flush(i) =>
      if !Concerns(x, i) then []
      else
        var finds := STAGES[i] !in r.completed && met.found;
        Finding(u, finds) + Flushing(x, u, met.flushed, OneMore(finds, n))
    case Persist =>
      var finds := BuiltBy(x).None? && met.found;
      Finding(u, finds) + Persisting(x, u, OneMore(finds, n))
    case _ => []
  }

  function Doings(x: Source, u: Subject, chain: System, keys: seq<nat>, e: Event, n: nat): seq<Table.LifeEvent> {
    match e
    case Boot(_) => [Table.Restarted(keys)]
    case Kill => []
    case Tick(met) => if chain.process.None? then [] else StepDoings(x, u, chain.process.value, met, n)
  }

  /** The life of the table that a history of the chain drives; `reload` says which rows the process
      started at each place reloads. */
  function LifeOf(x: Source, u: Subject, reload: nat -> seq<nat>, trace: seq<Event>): seq<Table.LifeEvent>
    decreases |trace|
  {
    if |trace| == 0 then []
    else
      var n := |trace| - 1;
      var before := LifeOf(x, u, reload, trace[..n]);
      before + Doings(x, u, Execute(trace[..n]), reload(n), trace[n], |Table.AfterLife(before).objs|)
  }

  /** How many rows of the table stand for the finding. */
  function RowsOf(db: Rows.Db, finding: nat): set<nat> {
    set k | k in db.rows && db.rows[k].finding == finding
  }

  /** How many of the objects have no key. */
  function Waiting(objs: seq<Rows.Obj>, finding: nat): nat
    decreases |objs|
  {
    if |objs| == 0 then 0
    else
      var last := objs[|objs| - 1];
      Waiting(objs[..|objs| - 1], finding) + if last.id.None? && last.finding == finding then 1 else 0
  }

  lemma WaitingSnoc(objs: seq<Rows.Obj>, o: Rows.Obj, finding: nat)
    ensures Waiting(objs + [o], finding) == Waiting(objs, finding) + if o.id.None? && o.finding == finding then 1 else 0
  {
    assert (objs + [o])[..|objs|] == objs;
  }

  lemma {:induction false} NoneWaiting(objs: seq<Rows.Obj>, finding: nat)
    requires forall i :: 0 <= i < |objs| ==> objs[i].id.Some?
    ensures Waiting(objs, finding) == 0
    decreases |objs|
  {
    if |objs| > 0 {
      NoneWaiting(objs[..|objs| - 1], finding);
    }
  }

  lemma {:induction false} SameWaiting(a: seq<Rows.Obj>, b: seq<Rows.Obj>, finding: nat)
    requires |a| == |b| && forall i :: 0 <= i < |a| ==> a[i].id == b[i].id && a[i].finding == b[i].finding
    ensures Waiting(a, finding) == Waiting(b, finding)
    decreases |a|
  {
    if |a| > 0 {
      SameWaiting(a[..|a| - 1], b[..|b| - 1], finding);
    }
  }

  // ---------------------------------------------------------------- what merging adds

  lemma MergeOneCounts(s: Rows.Store, i: nat, finding: nat)
    requires Table.Sound(s) && i < |s.objs|
    ensures var o := s.objs[i];
            |RowsOf(Table.MergeOne(s, i).db, finding)| ==
            |RowsOf(s.db, finding)| + if o.id.None? && o.finding == finding then 1 else 0
  {
    var o, t := s.objs[i], Table.MergeOne(s, i);
    var key := Rows.KeyFor(s.db, o);
    if o.id.None? && o.finding == finding {
      assert key !in s.db.rows;
      assert RowsOf(t.db, finding) == RowsOf(s.db, finding) + {key};
    } else {
      assert RowsOf(t.db, finding) == RowsOf(s.db, finding);
    }
  }

  lemma MergedNext(s: Rows.Store, n: nat)
    requires 0 < n <= |s.objs|
    ensures var before := Rows.Merged(s, All(n - 1));
            Rows.Merged(s, All(n)) == Table.MergeOne(before, n - 1) && before.objs[n - 1] == s.objs[n - 1]
  {
    assert All(n)[..n - 1] == All(n - 1);
    Rows.MergedSkips(s, All(n - 1), n - 1);
  }

  lemma WaitingNext(objs: seq<Rows.Obj>, n: nat, finding: nat)
    requires 0 < n <= |objs|
    ensures Waiting(objs[..n], finding) ==
            Waiting(objs[..n - 1], finding) + if objs[n - 1].id.None? && objs[n - 1].finding == finding then 1 else 0
  {
    assert objs[..n] == objs[..n - 1] + [objs[n - 1]];
    WaitingSnoc(objs[..n - 1], objs[n - 1], finding);
  }

  lemma {:induction false} MergedSound(s: Rows.Store, n: nat)
    requires Table.Sound(s) && n <= |s.objs|
    ensures Table.Sound(Rows.Merged(s, All(n)))
    decreases n
  {
    if n > 0 {
      MergedSound(s, n - 1);
      MergedNext(s, n);
      Table.MergeOneSound(Rows.Merged(s, All(n - 1)), n - 1);
    }
  }

  lemma {:induction false} MergedCounts(s: Rows.Store, n: nat, finding: nat)
    requires Table.Sound(s) && n <= |s.objs|
    ensures |RowsOf(Rows.Merged(s, All(n)).db, finding)| == |RowsOf(s.db, finding)| + Waiting(s.objs[..n], finding)
    decreases n
  {
    if n > 0 {
      MergedCounts(s, n - 1, finding);
      MergedSound(s, n - 1);
      MergedNext(s, n);
      MergeOneCounts(Rows.Merged(s, All(n - 1)), n - 1, finding);
      WaitingNext(s.objs, n, finding);
    }
  }

  lemma AllPicks(objs: seq<Rows.Obj>)
    ensures Rows.Picks(objs, All(|objs|))
  {
  }

  /** A session that commits gives each object without a key a row. */
  lemma SessionCounts(s: Rows.Store, u: Subject)
    requires Table.Sound(s)
    ensures var stamped := s.(objs := Rows.StampPicked(s.objs, All(|s.objs|), u.run, u.now));
            var t := Rows.Merged(stamped, All(|s.objs|));
            && |RowsOf(t.db, u.finding)| == |RowsOf(s.db, u.finding)| + Waiting(s.objs, u.finding)
            && Waiting(t.objs, u.finding) == 0
            && Waiting(stamped.objs, u.finding) == Waiting(s.objs, u.finding)
  {
    var n := |s.objs|;
    var stamped := s.(objs := Rows.StampPicked(s.objs, All(n), u.run, u.now));
    Table.SameObjects(s, stamped);
    SameWaiting(stamped.objs, s.objs, u.finding);
    MergedCounts(stamped, n, u.finding);
    assert stamped.objs[..n] == stamped.objs;
    var t := Rows.Merged(stamped, All(n));
    forall i | 0 <= i < n ensures t.objs[i].id.Some? {
      assert All(n)[i] == i;
      Rows.MergedKeepsKeys(stamped, All(n), i);
    }
    NoneWaiting(t.objs, u.finding);
  }

  // ---------------------------------------------------------------- step by step

  /** The hand tells what the table holds and what waits for a key. */
  ghost predicate Tells(u: Subject, h: Hand, s: Rows.Store) {
    && Table.Sound(s)
    && |RowsOf(s.db, u.finding)| == h.rows
    && Waiting(s.objs, u.finding) == if h.unsaved then 1 else 0
  }

  lemma FindingTells(u: Subject, h: Hand, s: Rows.Store, finds: bool)
    requires Tells(u, h, s) && (finds ==> !h.unsaved)
    ensures var t := Fold(Table.Living(), s, Finding(u, finds));
            && Tells(u, if finds then Build(h) else h, t)
            && |t.objs| == OneMore(finds, |s.objs|)
  {
    if finds {
      var e := Table.Within(Rows.Found(Unsaved(u)));
      OnlyOne(s, e);
      Table.FoundSound(s, Unsaved(u));
      WaitingSnoc(s.objs, Unsaved(u), u.finding);
    }
  }

  lemma FlushedTells(u: Subject, h: Hand, s: Rows.Store, works: bool)
    requires Tells(u, h, s)
    ensures Tells(u, if works then Save(h) else h,
                  Table.Live(s, Table.Within(Rows.Flushed(All(|s.objs|), u.run, u.now, works))))
  {
    AllPicks(s.objs);
    SessionCounts(s, u);
    Table.LiveOneEach(s, Table.Within(Rows.Flushed(All(|s.objs|), u.run, u.now, works)));
  }

  /** After the final persist only the table is told: the objects do not learn their keys. */
  lemma PersistedTells(u: Subject, h: Hand, s: Rows.Store)
    requires Tells(u, h, s)
    ensures var t := Table.Live(s, Table.Persists(All(|s.objs|), u.run, u.now));
            Table.Sound(t) && |RowsOf(t.db, u.finding)| == Save(h).rows
  {
    AllPicks(s.objs);
    SessionCounts(s, u);
    Table.LiveOneEach(s, Table.Persists(All(|s.objs|), u.run, u.now));
  }

  lemma OnlyOne(s: Rows.Store, e: Table.LifeEvent)
    ensures Fold(Table.Living(), s, [e]) == Table.Live(s, e)
  {
    assert [e][..0] == [];
  }

  lemma FlushingTells(x: Source, u: Subject, h: Hand, s: Rows.Store, works: bool)
    requires Tells(u, h, s)
    ensures Tells(u, if StageFlushed(x) && works then Save(h) else h, Fold(Table.Living(), s, Flushing(x, u, works, |s.objs|)))
  {
    if StageFlushed(x) {
      FlushedTells(u, h, s, works);
      OnlyOne(s, Table.Within(Rows.Flushed(All(|s.objs|), u.run, u.now, works)));
    }
  }

  lemma PersistingTells(x: Source, u: Subject, h: Hand, s: Rows.Store)
    requires Tells(u, h, s)
    ensures var t := Fold(Table.Living(), s, Persisting(x, u, |s.objs|));
            Table.Sound(t) && |RowsOf(t.db, u.finding)| == (if FinallyListed(x) then Save(h) else h).rows
  {
    if FinallyListed(x) {
      PersistedTells(u, h, s);
      OnlyOne(s, Table.Persists(All(|s.objs|), u.run, u.now));
    }
  }

  /** Two hands that tell the same. */
  ghost predicate Same(g: Hand, h: Hand) {
    g.rows == h.rows && g.unsaved == h.unsaved
  }

  lemma TendFlushIs(x: Source, h: Hand, loaded: bool, met: Conditions)
    ensures var g := if !loaded && met.found then Build(h) else h;
            Same(TendFlush(x, h, loaded, met), if StageFlushed(x) && met.flushed then Save(g) else g)
  {
  }

  lemma TendPersistIs(x: Source, h: Hand, met: Conditions)
    ensures var g := if BuiltBy(x).None? && met.found then Build(h) else h;
            TendPersist(x, h, met).rows == (if FinallyListed(x) then Save(g) else g).rows
  {
  }

  lemma FlushTells(x: Source, u: Subject, h: Hand, s: Rows.Store, loaded: bool, met: Conditions)
    requires Tells(u, h, s) && (!loaded && met.found ==> !h.unsaved)
    ensures var finds := !loaded && met.found;
            Tells(u, TendFlush(x, h, loaded, met),
                  Fold(Table.Living(), s, Finding(u, finds) + Flushing(x, u, met.flushed, OneMore(finds, |s.objs|))))
  {
    var finds := !loaded && met.found;
    var g, t := if finds then Build(h) else h, Fold(Table.Living(), s, Finding(u, finds));
    FindingTells(u, h, s, finds);
    FlushingTells(x, u, g, t, met.flushed);
    FoldAppend(Table.Living(), s, Finding(u, finds), Flushing(x, u, met.flushed, |t.objs|));
    TendFlushIs(x, h, loaded, met);
  }

  lemma PersistTells(x: Source, u: Subject, h: Hand, s: Rows.Store, met: Conditions)
    requires Tells(u, h, s) && (BuiltBy(x).None? && met.found ==> !h.unsaved)
    ensures var finds := BuiltBy(x).None? && met.found;
            var t := Fold(Table.Living(), s, Finding(u, finds) + Persisting(x, u, OneMore(finds, |s.objs|)));
            Table.Sound(t) && |RowsOf(t.db, u.finding)| == TendPersist(x, h, met).rows
  {
    var finds := BuiltBy(x).None? && met.found;
    var g, t := if finds then Build(h) else h, Fold(Table.Living(), s, Finding(u, finds));
    FindingTells(u, h, s, finds);
    PersistingTells(x, u, g, t);
    FoldAppend(Table.Living(), s, Finding(u, finds), Persisting(x, u, |t.objs|));
    TendPersistIs(x, h, met);
  }

  /** The fate of the endpoint and the table go together. */
  ghost predicate Tied(x: Source, u: Subject, f: Fate, s: Rows.Store) {
    && Reckoned(x, f)
    && Table.Sound(s)
    && |RowsOf(s.db, u.finding)| == f.hand.rows
    && (f.chain.process.Some? && Rank(f.chain.process.value.phase) < 9 ==> Tells(u, f.hand, s))
  }

  /** Nothing waits for a key before the phase that finds it. */
  lemma NotBefore(x: Source, h: Hand, before: nat)
    requires Fits(x, h, before, Due(x))
    ensures !h.unsaved
  {
  }

  lemma FlushStepTells(x: Source, u: Subject, h: Hand, r: Run, met: Conditions, s: Rows.Store, before: nat, i: nat)
    requires r.phase == Flush(i) && i < 7 && Tells(u, h, s) && Fits(x, h, before, i)
    ensures Tells(u, Tend(x, h, r, met), Fold(Table.Living(), s, StepDoings(x, u, r, met, |s.objs|)))
  {
    if Concerns(x, i) {
      PositionOf(i);
      NotBefore(x, h, before);
      FlushTells(x, u, h, s, STAGES[i] in r.completed, met);
    }
  }

  lemma PersistStepIs(x: Source, u: Subject, h: Hand, r: Run, met: Conditions, n: nat)
    requires r.phase.Persist?
    ensures var finds := BuiltBy(x).None? && met.found;
            StepDoings(x, u, r, met, n) == Finding(u, finds) + Persisting(x, u, OneMore(finds, n))
    ensures Tend(x, h, r, met) == TendPersist(x, h, met)
  {
  }

  lemma PersistStepTells(x: Source, u: Subject, h: Hand, r: Run, met: Conditions, s: Rows.Store, before: nat)
    requires r.phase.Persist? && Tells(u, h, s) && Fits(x, h, before, 8)
    ensures var t := Fold(Table.Living(), s, StepDoings(x, u, r, met, |s.objs|));
            Table.Sound(t) && |RowsOf(t.db, u.finding)| == Tend(x, h, r, met).rows
  {
    assert BuiltBy(x).None? ==> !h.unsaved by {
      if BuiltBy(x).None? {
        NotBefore(x, h, before);
      }
    }
    PersistStepIs(x, u, h, r, met, |s.objs|);
    PersistTells(x, u, h, s, met);
  }

  lemma RestStepTells(x: Source, u: Subject, h: Hand, r: Run, met: Conditions, s: Rows.Store)
    requires !r.phase.Flush? && !r.phase.Persist? && Tells(u, h, s)
    ensures StepDoings(x, u, r, met, |s.objs|) == [] && Tells(u, Tend(x, h, r, met), s)
  {
  }

  lemma StepTells(x: Source, u: Subject, h: Hand, r: Run, met: Conditions, s: Rows.Store, before: nat)
    requires Tells(u, h, s) && Sensible(r.phase) && Fits(x, h, before, Rank(r.phase))
    ensures var t := Fold(Table.Living(), s, StepDoings(x, u, r, met, |s.objs|));
            && Table.Sound(t)
            && |RowsOf(t.db, u.finding)| == Tend(x, h, r, met).rows
            && (!r.phase.Persist? ==> Tells(u, Tend(x, h, r, met), t))
  {
    if r.phase.Flush? {
      FlushStepTells(x, u, h, r, met, s, before, r.phase.at);
    } else if r.phase.Persist? {
      PersistStepTells(x, u, h, r, met, s, before);
    } else {
      RestStepTells(x, u, h, r, met, s);
    }
  }

  /** After the final persist nothing is done to the table. */
  lemma IdleAfter(x: Source, u: Subject, h: Hand, r: Run, met: Conditions, n: nat)
    requires Sensible(r.phase) && Rank(r.phase) >= 9
    ensures StepDoings(x, u, r, met, n) == [] && Tend(x, h, r, met).rows == h.rows
  {
  }

  lemma TickTied(x: Source, u: Subject, f: Fate, s: Rows.Store, met: Conditions)
    requires Tied(x, u, f, s) && f.chain.process.Some?
    ensures Tied(x, u, Follow(x, f, Tick(met)),
                 Fold(Table.Living(), s, StepDoings(x, u, f.chain.process.value, met, |s.objs|)))
  {
    var r := f.chain.process.value;
    FollowReckoned(x, f, Tick(met));
    TickOf(x, f, met);
    StepRank(f.chain.log, r, met);
    if Rank(r.phase) < 9 {
      StepTells(x, u, f.hand, r, met, s, Savers(x, f.past));
    } else {
      IdleAfter(x, u, f.hand, r, met, |s.objs|);
    }
  }

  lemma BootTied(x: Source, u: Subject, f: Fate, s: Rows.Store, e: Event, keys: seq<nat>)
    requires Tied(x, u, f, s) && e.Boot?
    ensures Tied(x, u, Follow(x, f, e), Table.Live(s, Table.Restarted(keys)))
  {
    FollowReckoned(x, f, e);
    Table.RestartSound(s.db, keys);
    NoneWaiting(Table.Restart(s.db, keys).objs, u.finding);
  }

  lemma DoingsTied(x: Source, u: Subject, f: Fate, s: Rows.Store, keys: seq<nat>, e: Event)
    requires Tied(x, u, f, s)
    ensures Tied(x, u, Follow(x, f, e), Fold(Table.Living(), s, Doings(x, u, f.chain, keys, e, |s.objs|)))
  {
    match e
    case Boot(_) =>
      BootTied(x, u, f, s, e, keys);
      OnlyOne(s, Table.Restarted(keys));
    case Kill => FollowReckoned(x, f, e);
    case Tick(met) =>
      if f.chain.process.Some? {
        TickTied(x, u, f, s, met);
      }
  }

  lemma {:induction false} HistoryTied(x: Source, u: Subject, reload: nat -> seq<nat>, trace: seq<Event>)
    ensures Tied(x, u, FateOf(x, trace), Table.AfterLife(LifeOf(x, u, reload, trace)))
    decreases |trace|
  {
    if |trace| == 0 {
      HistoryReckoned(x, []);
    } else {
      var n := |trace| - 1;
      HistoryTied(x, u, reload, trace[..n]);
      var f, life := FateOf(x, trace[..n]), LifeOf(x, u, reload, trace[..n]);
      FateFollowsChain(x, trace[..n]);
      DoingsTied(x, u, f, Table.AfterLife(life), reload(n), trace[n]);
      FoldAppend(Table.Living(), Table.EMPTY, life,
                 Doings(x, u, f.chain, reload(n), trace[n], |Table.AfterLife(life).objs|));
    }
  }

  /** Over every history, and whatever is reloaded, the table holds as many rows of the endpoint as
      processes found and saved it. */
  lemma RowsAreInTheTable(x: Source, u: Subject, reload: nat -> seq<nat>, trace: seq<Event>)
    ensures var db := Table.AfterLife(LifeOf(x, u, reload, trace)).db;
            && |RowsOf(db, u.finding)| == FateOf(x, trace).hand.rows == Savers(x, Lives(FateOf(x, trace)))
            && (Table.HasFinding(db, u.finding) <==> FateOf(x, trace).hand.rows > 0)
  {
    HistoryTied(x, u, reload, trace);
    SurvivesExactlyWhen(x, trace);
    var db := Table.AfterLife(LifeOf(x, u, reload, trace)).db;
    if k :| k in db.rows && db.rows[k].finding == u.finding {
      assert k in RowsOf(db, u.finding);
    }
    if |RowsOf(db, u.finding)| > 0 {
      var k :| k in RowsOf(db, u.finding);
      assert db.rows[k].finding == u.finding;
    }
  }
}
