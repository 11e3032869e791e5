/** What a resume can still look for. Fingerprinting finds the TLS and SSH targets; a process that
    loaded the inventory rebuilds them from rows of the table instead, and the inventory's own rows
    do not hold them. What is drawn from a target is lost with it. */
module StageTargets {
  import opened StageChain
  import opened StageProofs
  import opened StagePrefix
  import opened StageResumes
  import opened StageRows
  import opened Traces
  import opened Wrappers

  datatype Target = TlsTarget | SshTarget

  /** The lists whose rows a resume rebuilds the target from. */
  function Seeds(k: Target): set<Source> {
    match k
    case TlsTarget => {TlsRows, PqcRows}
    case SshTarget => {SshRows}
  }

  /** The lists that may hold an endpoint because of the target. Code signing, e-mail and brokers
      have other origins too. */
  predicate Draws(x: Source, k: Target) {
    match k
    case TlsTarget => x in {TlsRows, PqcRows, Codesign, Email, Kafka, Rabbit, Redis}
    case SshTarget => x == SshRows
  }

  /** The step at hand finds the endpoint. */
  predicate Finds(x: Source, r: Run, met: Conditions) {
    && met.found
    && match r.phase
       case Flush(i) => Concerns(x, i) && STAGES[i] !in r.completed
       case Persist => BuiltBy(x).None?
       case _ => false
  }

  function Rows(x: Source, trace: seq<Event>): nat {
    FateOf(x, trace).hand.rows
  }

  function LivesOf(x: Source, trace: seq<Event>): seq<Life> {
    Lives(FateOf(x, trace))
  }

  /** Some row is left from which the target can be rebuilt. */
  ghost predicate Rebuildable(k: Target, trace: seq<Event>) {
    exists y :: y in Seeds(k) && Rows(y, trace) > 0
  }

  /** What the history does at place `n` finds an endpoint of the list without fingerprinting only if
      the target can be rebuilt. */
  ghost predicate DrawnAt(k: Target, x: Source, trace: seq<Event>, n: nat)
    requires n < |trace|
  {
    var before := Execute(trace[..n]);
    && (trace[n].Tick? && before.process.Some?)
    && Inventory in before.process.value.completed
    && Finds(x, before.process.value, trace[n].met)
    ==> Rebuildable(k, trace[..n])
  }

  /** The lists followed: those the target is rebuilt from, and one more. */
  function Followed(k: Target, x: Source): set<Source> {
    Seeds(k) + {x}
  }

  /** The followed lists hold their endpoints because of the target alone. */
  ghost predicate Drawn(k: Target, x: Source, trace: seq<Event>) {
    forall y, n :: y in Followed(k, x) && 0 <= n < |trace| ==> DrawnAt(k, y, trace, n)
  }

  lemma DrawnBefore(k: Target, x: Source, trace: seq<Event>)
    requires |trace| > 0 && Drawn(k, x, trace)
    ensures Drawn(k, x, trace[..|trace| - 1])
  {
    var init := trace[..|trace| - 1];
    forall y, n | y in Followed(k, x) && 0 <= n < |init| ensures DrawnAt(k, y, init, n) {
      assert DrawnAt(k, y, trace, n);
      assert init[..n] == trace[..n];
    }
  }

  // ---------------------------------------------------------------- one step of a life

  lemma FateGrows(x: Source, trace: seq<Event>)
    requires |trace| > 0
    ensures FateOf(x, trace) == Follow(x, FateOf(x, trace[..|trace| - 1]), trace[|trace| - 1])
    ensures FateOf(x, trace[..|trace| - 1]).chain == Execute(trace[..|trace| - 1])
  {
    FateFollowsChain(x, trace[..|trace| - 1]);
  }

  /** Nothing that a process did is undone, and what it did not find before it finds now. */
  ghost predicate Onward(x: Source, l: Life, m: Life, finds: bool) {
    && m.probed == l.probed
    && (l.built ==> m.built)
    && (l.flushed ==> m.flushed)
    && (l.persisted ==> m.persisted)
    && (m.built ==> l.built || finds)
  }

  lemma FlushOnward(x: Source, h: Hand, loaded: bool, met: Conditions)
    ensures Onward(x, h.now, TendFlush(x, h, loaded, met).now, met.found && !loaded)
  {
  }

  lemma PersistOnward(x: Source, h: Hand, met: Conditions)
    ensures Onward(x, h.now, TendPersist(x, h, met).now, met.found && BuiltBy(x).None?)
  {
  }

  lemma TendOnward(x: Source, h: Hand, r: Run, met: Conditions)
    ensures Onward(x, h.now, Tend(x, h, r, met).now, Finds(x, r, met))
  {
    match r.phase
    case Flush(i) =>
      if Concerns(x, i) {
        FlushOnward(x, h, STAGES[i] in r.completed, met);
      }
    case Persist => PersistOnward(x, h, met);
    case _ =>
  }

  // ---------------------------------------------------------------- who probed

  /** A process that did the fingerprinting itself saved the endpoint. */
  predicate Founds(x: Source, l: Life) {
    l.probed && Saves(x, l)
  }

  ghost predicate Founded(ys: set<Source>, trace: seq<Event>) {
    exists y, p :: y in ys && 0 <= p < |LivesOf(y, trace)| && Founds(y, LivesOf(y, trace)[p])
  }

  /** Where nothing was founded, only processes that fingerprinted found anything. */
  ghost predicate Rooted(y: Source, founded: bool, f: Fate) {
    && (forall p :: 0 <= p < |f.past| && f.past[p].built ==> f.past[p].probed || founded)
    && (f.hand.now.built ==> f.hand.now.probed || founded)
    && (f.chain.process.Some? ==> (f.hand.now.probed <==> Inventory !in f.chain.process.value.completed))
  }

  lemma LivesGrow(x: Source, trace: seq<Event>, p: nat)
    requires |trace| > 0
    requires p < |LivesOf(x, trace[..|trace| - 1])| && Founds(x, LivesOf(x, trace[..|trace| - 1])[p])
    ensures p < |LivesOf(x, trace)| && Founds(x, LivesOf(x, trace)[p])
  {
    FateGrows(x, trace);
    var f, e := FateOf(x, trace[..|trace| - 1]), trace[|trace| - 1];
    if e.Tick? && f.chain.process.Some? {
      TendOnward(x, f.hand, f.chain.process.value, e.met);
    }
  }

  lemma FoundedStays(ys: set<Source>, trace: seq<Event>)
    requires |trace| > 0 && Founded(ys, trace[..|trace| - 1])
    ensures Founded(ys, trace)
  {
    var init := trace[..|trace| - 1];
    var y, p :| y in ys && 0 <= p < |LivesOf(y, init)| && Founds(y, LivesOf(y, init)[p]);
    LivesGrow(y, trace, p);
  }

  /** A row from which the target can be rebuilt was saved by a process that fingerprinted, or there
      is another that was. */
  lemma RowIsFounded(ys: set<Source>, y: Source, trace: seq<Event>)
    requires y in ys && Rows(y, trace) > 0 && Rooted(y, Founded(ys, trace), FateOf(y, trace))
    ensures Founded(ys, trace)
  {
    SurvivesExactlyWhen(y, trace);
    var lives := LivesOf(y, trace);
    var p :| 0 <= p < |lives| && Saves(y, lives[p]);
    assert p < |FateOf(y, trace).past| ==> lives[p] == FateOf(y, trace).past[p];
    if lives[p].probed {
      assert Founds(y, lives[p]);
    }
  }

  /** What is found without fingerprinting goes back to a row that was founded. */
  lemma FindingIsFounded(k: Target, x: Source, y: Source, trace: seq<Event>)
    requires |trace| > 0 && y in Followed(k, x) && Drawn(k, x, trace)
    requires forall z :: z in Followed(k, x) ==>
               Rooted(z, Founded(Followed(k, x), trace[..|trace| - 1]), FateOf(z, trace[..|trace| - 1]))
    requires var before := Execute(trace[..|trace| - 1]);
             && trace[|trace| - 1].Tick? && before.process.Some?
             && Inventory in before.process.value.completed
             && Finds(y, before.process.value, trace[|trace| - 1].met)
    ensures Founded(Followed(k, x), trace[..|trace| - 1])
  {
    var n := |trace| - 1;
    assert DrawnAt(k, y, trace, n);
    var z :| z in Seeds(k) && Rows(z, trace[..n]) > 0;
    RowIsFounded(Followed(k, x), z, trace[..n]);
  }

  /** One more step of one list. */
  lemma RootedNext(k: Target, x: Source, y: Source, trace: seq<Event>)
    requires |trace| > 0 && y in Followed(k, x) && Drawn(k, x, trace)
    requires forall z :: z in Followed(k, x) ==>
               Rooted(z, Founded(Followed(k, x), trace[..|trace| - 1]), FateOf(z, trace[..|trace| - 1]))
    ensures Rooted(y, Founded(Followed(k, x), trace), FateOf(y, trace))
  {
    var n := |trace| - 1;
    var f, e, founded := FateOf(y, trace[..n]), trace[n], Founded(Followed(k, x), trace[..n]);
    FateGrows(y, trace);
    assert founded ==> Founded(Followed(k, x), trace) by {
      if founded {
        FoundedStays(Followed(k, x), trace);
      }
    }
    match e
    case Boot(_) => BootRooted(y, founded, f, e);
    case Kill =>
    case Tick(met) =>
      if f.chain.process.Some? {
        var r := f.chain.process.value;
        if Finds(y, r, met) && Inventory in r.completed {
          FindingIsFounded(k, x, y, trace);
        }
        TickRooted(y, founded, f, met);
      }
  }

  lemma BootRooted(y: Source, founded: bool, f: Fate, e: Event)
    requires Rooted(y, founded, f) && e.Boot?
    ensures Rooted(y, founded, Follow(y, f, e))
  {
    var past := f.past + [f.hand.now];
    forall p | 0 <= p < |past| && past[p].built ensures past[p].probed || founded {
      assert p < |f.past| ==> past[p] == f.past[p];
    }
  }

  lemma TickRooted(y: Source, founded: bool, f: Fate, met: Conditions)
    requires Rooted(y, founded, f) && f.chain.process.Some?
    requires Finds(y, f.chain.process.value, met) && Inventory in f.chain.process.value.completed ==> founded
    ensures Rooted(y, founded, Follow(y, f, Tick(met)))
  {
    var r := f.chain.process.value;
    TendOnward(y, f.hand, r, met);
    TickOf(y, f, met);
    MarksAfter(f.chain.log, r, met, Inventory);
  }

  lemma {:induction false} HistoryRooted(k: Target, x: Source, y: Source, trace: seq<Event>)
    requires Drawn(k, x, trace) && y in Followed(k, x)
    ensures Rooted(y, Founded(Followed(k, x), trace), FateOf(y, trace))
    decreases |trace|
  {
    if |trace| > 0 {
      DrawnBefore(k, x, trace);
      forall z | z in Followed(k, x)
        ensures Rooted(z, Founded(Followed(k, x), trace[..|trace| - 1]), FateOf(z, trace[..|trace| - 1]))
      {
        HistoryRooted(k, x, z, trace[..|trace| - 1]);
      }
      RootedNext(k, x, y, trace);
    }
  }

  /** Over every history, the target can be rebuilt if and only if a process that did the
      fingerprinting itself saved one of the rows it is rebuilt from. A resume adds none of its own. */
  lemma TargetSurvivesExactlyWhen(k: Target, x: Source, trace: seq<Event>)
    requires x in Seeds(k) && Drawn(k, x, trace)
    ensures Rebuildable(k, trace) <==>
              exists y, p :: y in Seeds(k) && 0 <= p < |LivesOf(y, trace)| && Founds(y, LivesOf(y, trace)[p])
  {
    assert Followed(k, x) == Seeds(k);
    if Rebuildable(k, trace) {
      var y :| y in Seeds(k) && Rows(y, trace) > 0;
      HistoryRooted(k, x, y, trace);
      RowIsFounded(Seeds(k), y, trace);
    }
    if y, p :| y in Seeds(k) && 0 <= p < |LivesOf(y, trace)| && Founds(y, LivesOf(y, trace)[p]) {
      SurvivesExactlyWhen(y, trace);
    }
  }

  /** And an endpoint that only the target gives has a row only if such a process saved it, or one of
      those rows. */
  lemma DrawnRowsAreFounded(k: Target, x: Source, trace: seq<Event>)
    requires Draws(x, k) && Drawn(k, x, trace) && Rows(x, trace) > 0
    ensures exists y, p :: y in Followed(k, x) && 0 <= p < |LivesOf(y, trace)| && Founds(y, LivesOf(y, trace)[p])
  {
    HistoryRooted(k, x, x, trace);
    RowIsFounded(Followed(k, x), x, trace);
  }

  // ---------------------------------------------------------------- lost for good

  /** The inventory is marked, and neither the table nor the process at hand has anything of the list. */
  ghost predicate Gone(x: Source, f: Fate) {
    && f.hand.rows == 0
    && Inventory in Marks(f.chain.log)
    && (f.chain.process.Some? ==> Inventory in f.chain.process.value.completed && !f.hand.unsaved)
  }

  lemma TendGone(x: Source, h: Hand, r: Run, met: Conditions)
    requires h.rows == 0 && !h.unsaved && !Finds(x, r, met)
    ensures Tend(x, h, r, met).rows == 0 && !Tend(x, h, r, met).unsaved
  {
    match r.phase
    case Flush(i) =>
      if Concerns(x, i) {
        assert Tend(x, h, r, met) == TendFlush(x, h, STAGES[i] in r.completed, met);
      }
    case Persist => assert Tend(x, h, r, met) == TendPersist(x, h, met);
    case _ =>
  }

  lemma FollowGone(x: Source, f: Fate, e: Event)
    requires Gone(x, f) && Loads(e)
    requires e.Tick? && f.chain.process.Some? ==> !Finds(x, f.chain.process.value, e.met)
    ensures Gone(x, Follow(x, f, e))
  {
    match e
    case Boot(_) =>
    case Kill =>
    case Tick(met) =>
      if f.chain.process.Some? {
        TendGone(x, f.hand, f.chain.process.value, met);
        TickOf(x, f, met);
        MarksAfter(f.chain.log, f.chain.process.value, met, Inventory);
      }
  }

  /** Once the inventory is checkpointed and no row of the target is left, nothing drawn from it is
      ever found again by a process that loads its checkpoints, however many there are. */
  lemma {:induction false} LostForGood(k: Target, x: Source, trace: seq<Event>, more: seq<Event>)
    requires forall y :: y in Followed(k, x) ==> Gone(y, FateOf(y, trace))
    requires (forall e :: e in more ==> Loads(e)) && Drawn(k, x, trace + more)
    ensures forall y :: y in Followed(k, x) ==> Rows(y, trace + more) == 0 && Gone(y, FateOf(y, trace + more))
    decreases |more|
  {
    if |more| == 0 {
      assert trace + more == trace;
    } else {
      var n, all := |more| - 1, trace + more;
      assert all[..|all| - 1] == trace + more[..n] && all[|all| - 1] == more[n];
      DrawnBefore(k, x, all);
      LostForGood(k, x, trace, more[..n]);
      forall y | y in Followed(k, x) ensures Gone(y, FateOf(y, all)) {
        GoneNext(k, x, y, all);
      }
    }
  }

  lemma GoneNext(k: Target, x: Source, y: Source, all: seq<Event>)
    requires |all| > 0 && Loads(all[|all| - 1]) && Drawn(k, x, all) && y in Followed(k, x)
    requires forall z :: z in Followed(k, x) ==> Gone(z, FateOf(z, all[..|all| - 1]))
    ensures Gone(y, FateOf(y, all))
  {
    var n := |all| - 1;
    FateGrows(y, all);
    assert DrawnAt(k, y, all, n);
    assert !Rebuildable(k, all[..n]);
    FollowGone(y, FateOf(y, all[..n]), all[n]);
  }

  /** A first run that dies right after the inventory checkpoint. */
  function InventoryOnly(): seq<Event> {
    [Boot(true), Tick(CALM)] + [Tick(CALM), Tick(CALM), Tick(CALM)] + [Kill]
  }

  lemma InventoryTurn(x: Source, f: Fate) returns (g: Fate)
    requires Midway(f, 0) && BuiltBy(x) != Some(Inventory)
    ensures g == Fold(Following(x), f, [Tick(CALM), Tick(CALM), Tick(CALM)])
    ensures g.hand.rows == 0 && g.chain.process.Some?
    ensures g.chain.log == f.chain.log + [Tried(Flushed(Inventory), true), Tried(Checkpointed(Inventory, false), true)]
  {
    CalmEnter(x, f, 0);
    var entered := Follow(x, f, Tick(CALM));
    TickOf(x, entered, CALM);
    var flushed := Follow(x, entered, Tick(CALM));
    assert flushed.hand == entered.hand;
    assert flushed.chain == System(f.chain.log + [Tried(Flushed(Inventory), true)], Some(f.chain.process.value.(phase := Mark(0))));
    TickOf(x, flushed, CALM);
    g := Follow(x, flushed, Tick(CALM));
    ThreeSteps(Following(x), f, Tick(CALM));
  }

  lemma InventoryOnlyLeaves(x: Source)
    requires BuiltBy(x) != Some(Inventory)
    ensures Gone(x, FateOf(x, InventoryOnly()))
    ensures Execute(InventoryOnly()).process.None? && Marks(Execute(InventoryOnly()).log) == {Inventory}
  {
    var start, turn := [Boot(true), Tick(CALM)], [Tick(CALM), Tick(CALM), Tick(CALM)];
    FirstRunStarts(x);
    var f := FateOf(x, start);
    var g := InventoryTurn(x, f);
    FoldAppend(Following(x), UNBORN, start, turn);
    FoldAppend(Following(x), UNBORN, start + turn, [Kill]);
    assert [Kill][..0] == [] && Fold(Following(x), g, [Kill]) == Follow(x, g, Kill);
    MarksSnoc(f.chain.log, Tried(Flushed(Inventory), true));
    MarksSnoc(f.chain.log + [Tried(Flushed(Inventory), true)], Tried(Checkpointed(Inventory, false), true));
    assert f.chain.log + [Tried(Flushed(Inventory), true)] + [Tried(Checkpointed(Inventory, false), true)] == g.chain.log;
    assert Upto(0) == {};
    FateFollowsChain(x, InventoryOnly());
  }

  /** The targets are lost after that, whatever resumes follow, as long as they load their checkpoints. */
  lemma TargetsStayLost(k: Target, x: Source, more: seq<Event>)
    requires Draws(x, k)
    requires (forall e :: e in more ==> Loads(e)) && Drawn(k, x, InventoryOnly() + more)
    ensures Rows(x, InventoryOnly() + more) == 0
  {
    forall y | y in Followed(k, x) ensures Gone(y, FateOf(y, InventoryOnly())) {
      InventoryOnlyLeaves(y);
    }
    LostForGood(k, x, InventoryOnly(), more);
  }

  const UNFOUND: Conditions := CALM.(found := false)

  /** The rest of a resume without trouble, which finds nothing, there being nothing to look for. */
  function Fruitless(): seq<Event> {
    [Boot(true)] + seq(42, _ => Tick(UNFOUND))
  }

  /** What is found makes no difference to the chain. */
  lemma {:induction false} FindingIsNotLogged(s: System, n: nat)
    ensures Fold(Transition(), s, seq(n, _ => Tick(UNFOUND))) == Fold(Transition(), s, seq(n, _ => Tick(CALM)))
    decreases n
  {
    if n > 0 {
      FindingIsNotLogged(s, n - 1);
      assert seq(n, _ => Tick(UNFOUND))[..n - 1] == seq(n - 1, _ => Tick(UNFOUND));
      assert seq(n, _ => Tick(CALM))[..n - 1] == seq(n - 1, _ => Tick(CALM));
      SameStep(Fold(Transition(), s, seq(n - 1, _ => Tick(CALM))));
    }
  }

  lemma SameStep(s: System)
    ensures Apply(s, Tick(UNFOUND)) == Apply(s, Tick(CALM))
  {
    if s.process.Some? {
      assert Step(s.log, s.process.value, UNFOUND) == Step(s.log, s.process.value, CALM);
    }
  }

  lemma {:induction false} FirstRunLoadedNothing(n: nat)
    requires 1 <= n <= 5
    ensures Loaded(Execute(InventoryOnly()[..n])) == {}
    decreases n
  {
    if n == 1 {
      ExecuteBoot();
      assert InventoryOnly()[..1] == [Boot(true)];
    } else {
      FirstRunLoadedNothing(n - 1);
      var before := Execute(InventoryOnly()[..n - 1]);
      assert InventoryOnly()[..n] == InventoryOnly()[..n - 1] + [Tick(CALM)];
      ExecuteMore(InventoryOnly()[..n - 1], Tick(CALM));
      if before.process.Some? {
        MarksAfter(before.log, before.process.value, CALM, Inventory);
      }
    }
  }

  /** It is a history of the code: nothing is found in it that could not be. */
  lemma FruitlessIsDrawn(k: Target, x: Source)
    ensures Drawn(k, x, InventoryOnly() + Fruitless())
  {
    var all := InventoryOnly() + Fruitless();
    forall y, n | y in Followed(k, x) && 0 <= n < |all| ensures DrawnAt(k, y, all, n) {
      if 1 <= n <= 5 {
        FirstRunLoadedNothing(n);
        assert all[..n] == InventoryOnly()[..n];
      } else if n > 6 {
        assert all[n] == Tick(UNFOUND);
      }
    }
  }

  predicate Kept(t: Tried) {
    t.ok
  }

  ghost predicate AllKept(s: System) {
    forall i :: 0 <= i < |s.log| ==> Kept(s.log[i])
  }

  lemma HistoryKept(trace: seq<Event>)
    requires forall e :: e in trace ==> (e.Tick? ==> e.met.flushed && e.met.written)
    ensures AllKept(Execute(trace))
  {
    forall s, e: Event | AllKept(s) && (e.Tick? ==> e.met.flushed && e.met.written) ensures AllKept(Transition()(s, e)) {
      if e.Tick? && s.process.Some? {
        StepKept(s.log, s.process.value, e.met);
      }
    }
    FoldInvariant(Transition(), s => AllKept(s), (e: Event) => e.Tick? ==> e.met.flushed && e.met.written, FRESH, trace);
  }

  lemma StepKept(log: seq<Tried>, r: Run, met: Conditions)
    requires met.flushed && met.written && forall i :: 0 <= i < |log| ==> Kept(log[i])
    ensures var log' := Step(log, r, met).0; forall i :: 0 <= i < |log'| ==> Kept(log'[i])
  {
    StepLog(log, r, met);
  }

  /** TLS and SSH rows, and whatever only such a target gives, are lost although no write was: the
      process died between the inventory checkpoint and the flush of the stage, and the resume
      finishes with every stage checkpointed, tls and ssh included, and no row. */
  lemma TargetsAreLost(k: Target, x: Source)
    requires Draws(x, k)
    ensures var f := FateOf(x, InventoryOnly() + Fruitless());
            && f.chain.process.Some? && f.chain.process.value.phase.Finished?
            && (forall s: Stage :: s in Marks(f.chain.log))
            && (forall i :: 0 <= i < |f.chain.log| ==> f.chain.log[i].ok)
            && f.hand.rows == 0
  {
    var all := InventoryOnly() + Fruitless();
    FruitlessIsDrawn(k, x);
    TargetsStayLost(k, x, Fruitless());
    InventoryOnlyLeaves(x);
    FateFollowsChain(x, all);
    HistoryKept(all);
    assert forall i :: 0 <= i < |Execute(all).log| ==> Kept(Execute(all).log[i]);
    FruitlessFinishes();
  }

  lemma FruitlessFinishes()
    ensures var s := Execute(InventoryOnly() + Fruitless());
            s.process.Some? && s.process.value.phase.Finished? && forall x: Stage :: x in Marks(s.log)
  {
    InventoryOnlyLeaves(TlsRows);
    var s := Execute(InventoryOnly());
    var ticks := seq(42, _ => Tick(UNFOUND));
    FoldAppend(Transition(), FRESH, InventoryOnly(), Fruitless());
    FoldAppend(Transition(), s, [Boot(true)], ticks);
    assert [Boot(true)][..0] == [] && Fold(Transition(), s, [Boot(true)]) == Apply(s, Boot(true));
    ResumeCompletes(s, true);
    FindingIsNotLogged(Apply(s, Boot(true)), 42);
  }
}
