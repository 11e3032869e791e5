/** The lists of endpoints a scan builds, followed through the stage chain and the endpoint table:
    which write saves each of them, when their rows survive a crash, and when they are doubled. */
module StageRows {
  import opened StageChain
  import opened StageProofs
  import opened StagePrefix
  import opened StageResumes
  import opened Traces
  import opened Wrappers

  /** The lists. `Errors` are the rows that a stage adds to the shared list of errors, `Notices` those
      that every process adds to it. */
  datatype Source =
    | InventoryRows | TlsRows | SshRows | PqcRows
    | Jwt | Container | SourceCode | Openapi | Fuzz | Bearer
    | Aws | Azure | Gcp | Databases
    | S3 | Blob | GcsStorage | K8s | Dnssec | Saml | Kerberos | Smime | Adcs | Codesign | Vault
    | Email | Kafka | Rabbit | Redis
    | Errors(stage: Stage) | Notices

  /** The guarded stage that builds the list; some are built by every process that gets far enough. */
  function BuiltBy(x: Source): Option<Stage> {
    match x
    case InventoryRows => Some(Inventory)
    case TlsRows => Some(Tls)
    case SshRows => Some(Ssh)
    case Jwt | Container | SourceCode | Openapi | Fuzz => Some(Api)
    case Aws | Azure | Gcp | Databases => Some(Identity)
    case S3 | Blob | GcsStorage | K8s | Dnssec | Saml | Kerberos | Smime | Adcs | Codesign | Vault => Some(DataAtRest)
    case Email | Kafka | Rabbit | Redis => Some(BrokerEmail)
    case Errors(stage) => Some(stage)
    case PqcRows | Bearer | Notices => None
  }

  /** Whether the flush of that stage lists it: code signing and the error rows are left out. */
  predicate StageFlushed(x: Source) {
    BuiltBy(x).Some? && x != Codesign && !x.Errors?
  }

  /** Whether the final persist lists it: the fuzz endpoints are left out. */
  predicate FinallyListed(x: Source) {
    x != Fuzz
  }

  /** What one process did about an endpoint of a list: whether it did the fingerprinting itself, not
      having loaded the inventory; whether it built the list with the endpoint in it; whether its flush
      of the stage and its checkpoint of the stage reached the disk; and whether its final persist
      committed. */
  datatype Life = Life(probed: bool, built: bool, flushed: bool, marked: bool, persisted: bool)

  function Newborn(completed: set<Stage>): Life {
    Life(Inventory !in completed, false, false, false, false)
  }

  /** The process at hand, whether it holds the endpoint without a key, and how many rows there are of it. */
  datatype Hand = Hand(now: Life, unsaved: bool, rows: nat)

  /** The chain, the processes before this one, and the hand. */
  datatype Fate = Fate(chain: System, past: seq<Life>, hand: Hand)

  function Lives(f: Fate): seq<Life> {
    f.past + [f.hand.now]
  }

  function Save(h: Hand): Hand {
    h.(rows := if h.unsaved then h.rows + 1 else h.rows, unsaved := false)
  }

  /** The endpoint is found: an object without a key is in hand. */
  function Build(h: Hand): Hand {
    h.(now := h.now.(built := true), unsaved := true)
  }

  /** The stage is run, unless it was loaded, and flushed. Running it need not find the endpoint. */
  function TendFlush(x: Source, h: Hand, loaded: bool, met: Conditions): Hand {
    var g := if loaded || !met.found then h else Build(h);
    if !met.flushed then g
    else if StageFlushed(x) then Save(g.(now := g.now.(flushed := true)))
    else g.(now := g.now.(flushed := true))
  }

  function TendPersist(x: Source, h: Hand, met: Conditions): Hand {
    var g := if BuiltBy(x).None? && met.found then Build(h) else h;
    if FinallyListed(x) then Save(g.(now := g.now.(persisted := true))) else g.(now := g.now.(persisted := true))
  }

  /** The phase is one of the stage that builds the list. */
  predicate Concerns(x: Source, i: nat) {
    i < |STAGES| && BuiltBy(x) == Some(STAGES[i])
  }

  /** What the step of the chain does about the list. */
  function Tend(x: Source, h: Hand, r: Run, met: Conditions): Hand {
    match r.phase
    case Flush(i) => if Concerns(x, i) then TendFlush(x, h, STAGES[i] in r.completed, met) else h
    case Mark(i) => if Concerns(x, i) && met.written then h.(now := h.now.(marked := true)) else h
    case Persist => TendPersist(x, h, met)
    case _ => h
  }

  /** The stages the process loaded. */
  function Loaded(chain: System): set<Stage> {
    if chain.process.None? then {} else chain.process.value.completed
  }

  function Follow(x: Source, f: Fate, e: Event): Fate {
    var chain := Apply(f.chain, e);
    match e
    case Boot(_) => Fate(chain, f.past + [f.hand.now], Hand(Newborn(Loaded(chain)), false, f.hand.rows))
    case Kill => f.(chain := chain)
    case Tick(met) =>
      if f.chain.process.None? then f.(chain := chain)
      else f.(chain := chain, hand := Tend(x, f.hand, f.chain.process.value, met))
  }

  function Following(x: Source): (Fate, Event) -> Fate {
    (f, e) => Follow(x, f, e)
  }

  const UNBORN: Fate := Fate(FRESH, [], Hand(Newborn({}), false, 0))

  function FateOf(x: Source, trace: seq<Event>): Fate {
    Fold(Following(x), UNBORN, trace)
  }

  // ---------------------------------------------------------------- who saved what

  /** A process saved what it found: by its stage's flush if that lists it, or by its final persist. */
  predicate Saves(x: Source, l: Life) {
    l.built && ((StageFlushed(x) && l.flushed) || (FinallyListed(x) && l.persisted))
  }

  function Savers(x: Source, lives: seq<Life>): nat
    decreases |lives|
  {
    if |lives| == 0 then 0
    else Savers(x, lives[..|lives| - 1]) + if Saves(x, lives[|lives| - 1]) then 1 else 0
  }

  /** How far a phase is: stages by position, then the final persist, then what comes after it. */
  ghost function Rank(p: Phase): nat {
    match p
    case Enter(i) => if i <= 7 then i else 9
    case Flush(i) => if i <= 7 then i else 9
    case Mark(i) => if i < 7 then i + 1 else 9
    case Persist => 8
    case Coverage | WriteReports | Finished => 9
    case Discover | NothingToScan | ShortCircuited => 0
  }

  ghost function Due(x: Source): nat {
    if BuiltBy(x).None? then 8 else Position(BuiltBy(x).value)
  }

  /** What a process did so far fits where it stands, and its rows are counted. */
  ghost predicate Fits(x: Source, h: Hand, before: nat, rank: nat) {
    && (h.now.built ==> Due(x) < rank)
    && (h.now.flushed ==> BuiltBy(x).Some? && Due(x) < rank)
    && (h.now.persisted ==> rank >= 9)
    && h.rows == before + (if Saves(x, h.now) then 1 else 0)
    && (h.unsaved <==> h.now.built && !Saves(x, h.now))
  }

  ghost predicate Sensible(p: Phase) {
    (p.Flush? ==> p.at < 7) && (p.Mark? ==> p.at < 8)
  }

  ghost predicate Reckoned(x: Source, f: Fate) {
    && f.hand.rows == Savers(x, Lives(f))
    && (f.chain.process.Some? ==>
          && Sensible(f.chain.process.value.phase)
          && Fits(x, f.hand, Savers(x, f.past), Rank(f.chain.process.value.phase)))
  }

  lemma SaversSnoc(x: Source, lives: seq<Life>, l: Life)
    ensures Savers(x, lives + [l]) == Savers(x, lives) + if Saves(x, l) then 1 else 0
  {
    assert (lives + [l])[..|lives|] == lives;
  }

  lemma FlushFits(x: Source, h: Hand, loaded: bool, met: Conditions, before: nat, i: nat)
    requires i < 7 && Concerns(x, i) && Fits(x, h, before, i)
    ensures Fits(x, TendFlush(x, h, loaded, met), before, i + 1)
  {
    PositionOf(i);
  }

  lemma PersistFits(x: Source, h: Hand, met: Conditions, before: nat)
    requires Fits(x, h, before, 8)
    ensures Fits(x, TendPersist(x, h, met), before, 9)
  {
  }

  lemma FitsLater(x: Source, h: Hand, before: nat, rank: nat, later: nat)
    requires Fits(x, h, before, rank) && rank <= later
    ensures Fits(x, h, before, later)
    ensures Fits(x, h.(now := h.now.(marked := true)), before, later)
  {
  }

  lemma FlushTended(x: Source, h: Hand, r: Run, met: Conditions, before: nat, i: nat)
    requires r.phase == Flush(i) && i < 7 && Fits(x, h, before, i)
    ensures Fits(x, Tend(x, h, r, met), before, i + 1)
  {
    if Concerns(x, i) {
      FlushFits(x, h, STAGES[i] in r.completed, met, before, i);
    } else {
      FitsLater(x, h, before, i, i + 1);
    }
  }

  lemma RestTended(x: Source, h: Hand, r: Run, met: Conditions, before: nat, rank: nat)
    requires !r.phase.Flush? && !r.phase.Persist? && Fits(x, h, before, rank)
    ensures Fits(x, Tend(x, h, r, met), before, rank)
  {
    FitsLater(x, h, before, rank, rank);
  }

  lemma TendFits(x: Source, h: Hand, r: Run, met: Conditions, before: nat, later: nat)
    requires Sensible(r.phase) && Fits(x, h, before, Rank(r.phase)) && Rank(r.phase) <= later
    requires r.phase.Flush? ==> later > r.phase.at
    requires r.phase.Persist? ==> later >= 9
    ensures Fits(x, Tend(x, h, r, met), before, later)
  {
    var g := Tend(x, h, r, met);
    if r.phase.Flush? {
      FlushTended(x, h, r, met, before, r.phase.at);
      FitsLater(x, g, before, r.phase.at + 1, later);
    } else if r.phase.Persist? {
      PersistFits(x, h, met, before);
      FitsLater(x, g, before, 9, later);
    } else {
      RestTended(x, h, r, met, before, Rank(r.phase));
      FitsLater(x, g, before, Rank(r.phase), later);
    }
  }

  /** A step never goes back. */
  lemma StepRank(log: seq<Tried>, r: Run, met: Conditions)
    requires Sensible(r.phase)
    ensures var p := Step(log, r, met).1.phase;
            && Sensible(p) && Rank(r.phase) <= Rank(p)
            && (r.phase.Flush? ==> Rank(p) > r.phase.at)
            && (r.phase.Persist? ==> Rank(p) >= 9)
  {
    if r.phase.Enter? && r.phase.at < |STAGES| {
      PositionOf(r.phase.at);
    }
  }

  lemma TickOf(x: Source, f: Fate, met: Conditions)
    requires f.chain.process.Some?
    ensures var g, r := Follow(x, f, Tick(met)), f.chain.process.value;
            && g.past == f.past
            && g.hand == Tend(x, f.hand, r, met)
            && g.chain.log == Apply(f.chain, Tick(met)).log
            && (g.chain.process.Some? ==> g.chain.process.value == Step(f.chain.log, r, met).1)
  {
  }

  lemma TickHand(x: Source, log: seq<Tried>, past: seq<Life>, h: Hand, r: Run, met: Conditions)
    requires Sensible(r.phase) && Fits(x, h, Savers(x, past), Rank(r.phase))
    ensures var g, p := Tend(x, h, r, met), Step(log, r, met).1.phase;
            Sensible(p) && Fits(x, g, Savers(x, past), Rank(p)) && g.rows == Savers(x, past + [g.now])
  {
    StepRank(log, r, met);
    TendFits(x, h, r, met, Savers(x, past), Rank(Step(log, r, met).1.phase));
    SaversSnoc(x, past, Tend(x, h, r, met).now);
  }

  lemma TickReckoned(x: Source, f: Fate, met: Conditions)
    requires Reckoned(x, f) && f.chain.process.Some?
    ensures Reckoned(x, Follow(x, f, Tick(met)))
  {
    TickOf(x, f, met);
    TickHand(x, f.chain.log, f.past, f.hand, f.chain.process.value, met);
  }

  lemma FollowReckoned(x: Source, f: Fate, e: Event)
    requires Reckoned(x, f)
    ensures Reckoned(x, Follow(x, f, e))
  {
    match e
    case Boot(_) => SaversSnoc(x, f.past + [f.hand.now], Newborn(Loaded(Apply(f.chain, e))));
    case Kill =>
    case Tick(met) =>
      if f.chain.process.Some? {
        TickReckoned(x, f, met);
      }
  }

  lemma HistoryReckoned(x: Source, trace: seq<Event>)
    ensures Reckoned(x, FateOf(x, trace))
  {
    forall f, e | Reckoned(x, f) ensures Reckoned(x, Following(x)(f, e)) {
      FollowReckoned(x, f, e);
    }
    SaversSnoc(x, [], Newborn({}));
    FoldInvariant(Following(x), f => Reckoned(x, f), _ => true, UNBORN, trace);
  }

  lemma {:induction false} FateFollowsChain(x: Source, trace: seq<Event>)
    ensures FateOf(x, trace).chain == Execute(trace)
    decreases |trace|
  {
    if |trace| > 0 {
      FateFollowsChain(x, trace[..|trace| - 1]);
    }
  }

  lemma {:induction false} SaversSome(x: Source, lives: seq<Life>)
    ensures Savers(x, lives) > 0 <==> exists p :: 0 <= p < |lives| && Saves(x, lives[p])
    decreases |lives|
  {
    if |lives| > 0 {
      var init := lives[..|lives| - 1];
      SaversSome(x, init);
      if Savers(x, init) > 0 {
        var p :| 0 <= p < |init| && Saves(x, init[p]);
        assert Saves(x, lives[p]);
      }
      if p :| 0 <= p < |lives| && Saves(x, lives[p]) {
        assert p < |init| ==> Saves(x, init[p]);
      }
    }
  }

  ghost predicate TwoSave(x: Source, lives: seq<Life>) {
    exists p, q :: 0 <= p < q < |lives| && Saves(x, lives[p]) && Saves(x, lives[q])
  }

  lemma TwoSaveMore(x: Source, init: seq<Life>, l: Life)
    requires TwoSave(x, init) || (Savers(x, init) > 0 && Saves(x, l))
    ensures TwoSave(x, init + [l])
  {
    var lives := init + [l];
    if TwoSave(x, init) {
      var p, q :| 0 <= p < q < |init| && Saves(x, init[p]) && Saves(x, init[q]);
      assert lives[p] == init[p] && lives[q] == init[q];
    } else {
      SaversSome(x, init);
      var p :| 0 <= p < |init| && Saves(x, init[p]);
      assert lives[p] == init[p] && lives[|init|] == l;
    }
  }

  lemma TwoSaveLess(x: Source, init: seq<Life>, l: Life)
    requires TwoSave(x, init + [l])
    ensures TwoSave(x, init) || (Savers(x, init) > 0 && Saves(x, l))
  {
    var lives := init + [l];
    var p, q :| 0 <= p < q < |lives| && Saves(x, lives[p]) && Saves(x, lives[q]);
    assert lives[p] == init[p];
    SaversSome(x, init);
    if q < |init| {
      assert lives[q] == init[q];
    }
  }

  lemma {:induction false} SaversTwo(x: Source, lives: seq<Life>)
    ensures Savers(x, lives) > 1 <==> TwoSave(x, lives)
    decreases |lives|
  {
    if |lives| > 0 {
      var n := |lives| - 1;
      SaversTwo(x, lives[..n]);
      assert lives == lives[..n] + [lives[n]];
      if TwoSave(x, lives) {
        TwoSaveLess(x, lives[..n], lives[n]);
      }
      if TwoSave(x, lives[..n]) || (Savers(x, lives[..n]) > 0 && Saves(x, lives[n])) {
        TwoSaveMore(x, lives[..n], lives[n]);
      }
    }
  }

  /** Over every history, whatever each process finds, an endpoint of a list has as many rows as
      processes found and saved it: by the flush of its stage if that lists it, or by the final
      persist if that does. It survives if and only if one did. */
  lemma SurvivesExactlyWhen(x: Source, trace: seq<Event>)
    ensures var f := FateOf(x, trace);
            && f.chain == Execute(trace)
            && f.hand.rows == Savers(x, Lives(f))
            && (f.hand.rows > 0 <==> exists p :: 0 <= p < |Lives(f)| && Saves(x, Lives(f)[p]))
  {
    HistoryReckoned(x, trace);
    FateFollowsChain(x, trace);
    SaversSome(x, Lives(FateOf(x, trace)));
  }

  /** What no stage's flush lists (code signing, error rows, and what belongs to no stage) survives
      if and only if the final persist of a process that built it committed: checkpoints and
      flushes do nothing for it. */
  lemma UnflushedSurvivesExactlyWhen(x: Source, trace: seq<Event>)
    requires !StageFlushed(x)
    ensures var f := FateOf(x, trace);
            f.hand.rows > 0 <==> exists p :: 0 <= p < |Lives(f)| && Lives(f)[p].built && Lives(f)[p].persisted
  {
    SurvivesExactlyWhen(x, trace);
    var lives := Lives(FateOf(x, trace));
    assert forall p :: 0 <= p < |lives| ==> (Saves(x, lives[p]) <==> lives[p].built && lives[p].persisted);
  }

  /** The fuzz endpoints, which the final persist does not list, survive if and only if the flush of
      the api stage committed in a process that built them. */
  lemma FuzzSurvivesExactlyWhen(trace: seq<Event>)
    ensures var f := FateOf(Fuzz, trace);
            f.hand.rows > 0 <==> exists p :: 0 <= p < |Lives(f)| && Lives(f)[p].built && Lives(f)[p].flushed
  {
    SurvivesExactlyWhen(Fuzz, trace);
    var lives := Lives(FateOf(Fuzz, trace));
    assert forall p :: 0 <= p < |lives| ==> (Saves(Fuzz, lives[p]) <==> lives[p].built && lives[p].flushed);
  }

  // ---------------------------------------------------------------- second rows

  ghost predicate Marked(lives: seq<Life>) {
    exists p :: 0 <= p < |lives| && lives[p].marked
  }

  /** Marks in the table are marks of processes; a process builds its list only if none came before. */
  ghost predicate Linked(s: Stage, f: Fate) {
    && (s in Marks(f.chain.log) <==> Marked(f.past) || f.hand.now.marked)
    && (forall p, q :: 0 <= p < q < |f.past| && f.past[q].built ==> !f.past[p].marked)
    && (f.hand.now.built ==> !Marked(f.past))
    && (f.chain.process.Some? ==> (s in f.chain.process.value.completed <==> Marked(f.past)))
  }

  lemma MarkedSnoc(lives: seq<Life>, l: Life)
    ensures Marked(lives + [l]) <==> Marked(lives) || l.marked
  {
    var more := lives + [l];
    if Marked(lives) {
      var p :| 0 <= p < |lives| && lives[p].marked;
      assert more[p].marked;
    }
    if l.marked {
      assert more[|lives|].marked;
    }
  }

  predicate Marking(r: Run, s: Stage, met: Conditions) {
    r.phase.Mark? && r.phase.at < |STAGES| && STAGES[r.phase.at] == s && met.written
  }

  lemma TendLinks(x: Source, s: Stage, h: Hand, r: Run, met: Conditions)
    requires BuiltBy(x) == Some(s)
    ensures var g := Tend(x, h, r, met);
            && (g.now.marked <==> h.now.marked || Marking(r, s, met))
            && (g.now.built ==> h.now.built || s !in r.completed)
  {
    match r.phase
    case Flush(i) => FlushLinks(x, s, h, r, met, i);
    case Mark(i) => MarkLinks(x, s, h, r, met, i);
    case Persist => PersistLinks(x, h, met);
    case _ =>
  }

  lemma FlushLinks(x: Source, s: Stage, h: Hand, r: Run, met: Conditions, i: nat)
    requires BuiltBy(x) == Some(s) && r.phase == Flush(i)
    ensures var g := Tend(x, h, r, met); g.now.marked == h.now.marked && (g.now.built ==> h.now.built || s !in r.completed)
  {
    if Concerns(x, i) {
      var loaded := STAGES[i] in r.completed;
      assert Tend(x, h, r, met) == TendFlush(x, h, loaded, met);
      TendFlushLinks(x, h, loaded, met);
    }
  }

  lemma TendFlushLinks(x: Source, h: Hand, loaded: bool, met: Conditions)
    ensures var g := TendFlush(x, h, loaded, met); g.now.marked == h.now.marked && (g.now.built ==> h.now.built || !loaded)
  {
  }

  lemma MarkLinks(x: Source, s: Stage, h: Hand, r: Run, met: Conditions, i: nat)
    requires BuiltBy(x) == Some(s) && r.phase == Mark(i)
    ensures var g := Tend(x, h, r, met); g.now.built == h.now.built && (g.now.marked <==> h.now.marked || Marking(r, s, met))
  {
    assert Concerns(x, i) && met.written <==> Marking(r, s, met);
  }

  lemma PersistLinks(x: Source, h: Hand, met: Conditions)
    requires BuiltBy(x).Some?
    ensures var g := TendPersist(x, h, met); g.now.marked == h.now.marked && g.now.built == h.now.built
  {
  }

  lemma MarksAfter(log: seq<Tried>, r: Run, met: Conditions, s: Stage)
    ensures s in Marks(Step(log, r, met).0) <==> s in Marks(log) || Marking(r, s, met)
    ensures Step(log, r, met).1.completed == r.completed
  {
    StepLog(log, r, met);
    if r.phase.Mark? {
      MarksAfterMark(log, r, met, s, r.phase.at);
    } else {
      NoMark(log, r, met);
    }
  }

  lemma MarksAfterMark(log: seq<Tried>, r: Run, met: Conditions, s: Stage, i: nat)
    requires r.phase == Mark(i)
    ensures s in Marks(Step(log, r, met).0) <==> s in Marks(log) || Marking(r, s, met)
  {
    if i < |STAGES| {
      MarksSnoc(log, Tried(Checkpointed(STAGES[i], met.partial && STAGES[i] != Inventory && STAGES[i] != Reports), met.written));
    }
  }

  lemma TickLinked(x: Source, s: Stage, f: Fate, met: Conditions)
    requires BuiltBy(x) == Some(s) && Linked(s, f) && f.chain.process.Some?
    ensures Linked(s, Follow(x, f, Tick(met)))
  {
    var r := f.chain.process.value;
    TendLinks(x, s, f.hand, r, met);
    MarksAfter(f.chain.log, r, met, s);
  }

  lemma BootLinked(x: Source, s: Stage, f: Fate)
    requires BuiltBy(x) == Some(s) && Linked(s, f)
    ensures Linked(s, Follow(x, f, Boot(true)))
  {
    MarkedSnoc(f.past, f.hand.now);
    var past := f.past + [f.hand.now];
    forall p, q | 0 <= p < q < |past| && past[q].built ensures !past[p].marked {
      assert p < |f.past| && past[p] == f.past[p];
      if q < |f.past| {
        assert past[q] == f.past[q];
      } else {
        assert !Marked(f.past);
      }
    }
  }

  lemma FollowLinked(x: Source, s: Stage, f: Fate, e: Event)
    requires BuiltBy(x) == Some(s) && Linked(s, f) && Loads(e)
    ensures Linked(s, Follow(x, f, e))
  {
    match e
    case Boot(_) => BootLinked(x, s, f);
    case Kill =>
    case Tick(met) =>
      if f.chain.process.Some? {
        TickLinked(x, s, f, met);
      }
  }

  lemma HistoryLinked(x: Source, s: Stage, trace: seq<Event>)
    requires BuiltBy(x) == Some(s) && forall e :: e in trace ==> Loads(e)
    ensures Linked(s, FateOf(x, trace))
  {
    forall f, e | Linked(s, f) && Loads(e) ensures Linked(s, Following(x)(f, e)) {
      FollowLinked(x, s, f, e);
    }
    FoldInvariant(Following(x), f => Linked(s, f), e => Loads(e), UNBORN, trace);
  }

  /** While every process loads its checkpoints, an endpoint of a stage's list has a second row if and
      only if a process saved it and was cut off, dead or its checkpoint lost, before the stage was
      marked, and a later one saved it again. */
  lemma SecondRowExactlyWhen(x: Source, trace: seq<Event>)
    requires forall e :: e in trace ==> Loads(e)
    requires BuiltBy(x).Some?
    ensures var lives := Lives(FateOf(x, trace));
            FateOf(x, trace).hand.rows > 1 <==>
              exists p, q :: 0 <= p < q < |lives| && Saves(x, lives[p]) && !lives[p].marked && Saves(x, lives[q])
  {
    HistoryLinked(x, BuiltBy(x).value, trace);
    HistoryReckoned(x, trace);
    var f := FateOf(x, trace);
    var lives := Lives(f);
    SaversTwo(x, lives);
    if f.hand.rows > 1 {
      var p, q :| 0 <= p < q < |lives| && Saves(x, lives[p]) && Saves(x, lives[q]);
      assert lives[p] == f.past[p];
      if q < |f.past| {
        assert lives[q] == f.past[q];
      } else {
        assert !Marked(f.past);
      }
      assert !lives[p].marked;
    }
  }

  // ---------------------------------------------------------------- lives and the log

  ghost predicate AnyFlushed(lives: seq<Life>) {
    exists p :: 0 <= p < |lives| && lives[p].flushed
  }

  ghost predicate AnyPersisted(lives: seq<Life>) {
    exists p :: 0 <= p < |lives| && lives[p].persisted
  }

  lemma AnySnoc(lives: seq<Life>, l: Life)
    ensures AnyFlushed(lives + [l]) <==> AnyFlushed(lives) || l.flushed
    ensures AnyPersisted(lives + [l]) <==> AnyPersisted(lives) || l.persisted
  {
    var more := lives + [l];
    assert more[|lives|] == l;
    if p :| 0 <= p < |lives| && lives[p].flushed {
      assert more[p].flushed;
    }
    if p :| 0 <= p < |lives| && lives[p].persisted {
      assert more[p].persisted;
    }
    if p :| 0 <= p < |more| && more[p].flushed {
      assert p < |lives| ==> lives[p].flushed;
    }
    if p :| 0 <= p < |more| && more[p].persisted {
      assert p < |lives| ==> lives[p].persisted;
    }
  }

  ghost predicate Told(s: Stage, f: Fate) {
    && (Tried(Flushed(s), true) in f.chain.log <==> AnyFlushed(f.past) || f.hand.now.flushed)
    && (Tried(FinalPersist, true) in f.chain.log <==> AnyPersisted(f.past) || f.hand.now.persisted)
  }

  predicate FlushesNow(r: Run, s: Stage, met: Conditions) {
    r.phase.Flush? && r.phase.at < |STAGES| && STAGES[r.phase.at] == s && met.flushed
  }

  lemma TendTells(x: Source, s: Stage, h: Hand, r: Run, met: Conditions)
    requires BuiltBy(x) == Some(s)
    ensures var g := Tend(x, h, r, met);
            && (g.now.flushed <==> h.now.flushed || FlushesNow(r, s, met))
            && (g.now.persisted <==> h.now.persisted || r.phase.Persist?)
  {
    match r.phase
    case Flush(i) => FlushTells(x, s, h, r, met, i);
    case Persist => PersistTells(x, h, met);
    case _ =>
  }

  lemma PersistTells(x: Source, h: Hand, met: Conditions)
    ensures var g := TendPersist(x, h, met); g.now.flushed == h.now.flushed && g.now.persisted
  {
  }

  lemma TendFlushTells(x: Source, h: Hand, loaded: bool, met: Conditions)
    ensures var g := TendFlush(x, h, loaded, met);
            (g.now.flushed <==> h.now.flushed || met.flushed) && g.now.persisted == h.now.persisted
  {
  }

  lemma FlushTells(x: Source, s: Stage, h: Hand, r: Run, met: Conditions, i: nat)
    requires BuiltBy(x) == Some(s) && r.phase == Flush(i)
    ensures var g := Tend(x, h, r, met);
            (g.now.flushed <==> h.now.flushed || FlushesNow(r, s, met)) && g.now.persisted == h.now.persisted
  {
    if Concerns(x, i) {
      TendFlushTells(x, h, STAGES[i] in r.completed, met);
      assert Tend(x, h, r, met) == TendFlush(x, h, STAGES[i] in r.completed, met);
    }
  }

  lemma LogTells(log: seq<Tried>, r: Run, met: Conditions, s: Stage)
    ensures var log' := Step(log, r, met).0;
            && (Tried(Flushed(s), true) in log' <==> Tried(Flushed(s), true) in log || FlushesNow(r, s, met))
            && (Tried(FinalPersist, true) in log' <==> Tried(FinalPersist, true) in log || r.phase.Persist?)
  {
    match r.phase
    case Discover =>
    case Enter(_) =>
    case Flush(_) =>
    case Mark(_) =>
    case _ =>
  }

  lemma ApplyLog(chain: System, met: Conditions)
    requires chain.process.Some?
    ensures Apply(chain, Tick(met)).log == Step(chain.log, chain.process.value, met).0
  {
  }

  lemma FollowTold(x: Source, s: Stage, f: Fate, e: Event)
    requires BuiltBy(x) == Some(s) && Told(s, f)
    ensures Told(s, Follow(x, f, e))
  {
    match e
    case Boot(_) => AnySnoc(f.past, f.hand.now);
    case Kill =>
    case Tick(met) =>
      if f.chain.process.Some? {
        TickOf(x, f, met);
        ApplyLog(f.chain, met);
        TendTells(x, s, f.hand, f.chain.process.value, met);
        LogTells(f.chain.log, f.chain.process.value, met, s);
      }
  }

  /** The lives tell what the log does: a flush of the stage, or a final persist, is in the log if and
      only if it is some process's. */
  lemma LivesTellTheLog(x: Source, s: Stage, trace: seq<Event>)
    requires BuiltBy(x) == Some(s)
    ensures var f := FateOf(x, trace);
            && (Tried(Flushed(s), true) in Execute(trace).log <==> AnyFlushed(Lives(f)))
            && (Tried(FinalPersist, true) in Execute(trace).log <==> AnyPersisted(Lives(f)))
  {
    forall f, e | Told(s, f) ensures Told(s, Following(x)(f, e)) {
      FollowTold(x, s, f, e);
    }
    FoldInvariant(Following(x), f => Told(s, f), _ => true, UNBORN, trace);
    FateFollowsChain(x, trace);
    AnySnoc(FateOf(x, trace).past, FateOf(x, trace).hand.now);
  }

  // ---------------------------------------------------------------- rows that are lost

  ghost predicate Barren(f: Fate, s: Stage, rows: nat) {
    && f.hand.rows == rows
    && (f.chain.process.Some? ==> s in f.chain.process.value.completed && !f.hand.unsaved)
  }

  /** A process that skips the stage adds no row, whatever it does. */
  lemma SkippingAddsNothing(x: Source, f: Fate, s: Stage, ticks: seq<Event>)
    requires BuiltBy(x) == Some(s) && Barren(f, s, f.hand.rows)
    requires forall e :: e in ticks ==> e.Tick?
    ensures Fold(Following(x), f, ticks).hand.rows == f.hand.rows
  {
    var rows := f.hand.rows;
    forall g, e: Event | Barren(g, s, rows) && e.Tick? ensures Barren(Following(x)(g, e), s, rows) {
      TickBarren(x, g, s, rows, e.met);
    }
    FoldInvariant(Following(x), g => Barren(g, s, rows), (e: Event) => e.Tick?, f, ticks);
  }

  lemma TickBarren(x: Source, f: Fate, s: Stage, rows: nat, met: Conditions)
    requires BuiltBy(x) == Some(s) && Barren(f, s, rows)
    ensures Barren(Follow(x, f, Tick(met)), s, rows)
  {
    if f.chain.process.Some? {
      TickOf(x, f, met);
      BarrenTend(x, s, f.hand, f.chain.process.value, met);
      MarksAfter(f.chain.log, f.chain.process.value, met, s);
    }
  }

  lemma BarrenTend(x: Source, s: Stage, h: Hand, r: Run, met: Conditions)
    requires BuiltBy(x) == Some(s) && s in r.completed && !h.unsaved
    ensures Tend(x, h, r, met).rows == h.rows && !Tend(x, h, r, met).unsaved
  {
    match r.phase
    case Flush(i) => if Concerns(x, i) { assert Tend(x, h, r, met) == TendFlush(x, h, true, met); }
    case Mark(_) =>
    case Persist =>
    case _ =>
  }

  function Upto(i: nat): set<Stage> {
    set s: Stage | Position(s) < i
  }

  /** A first run without trouble, about to enter a stage; the list has no rows yet. */
  ghost predicate Midway(f: Fate, i: nat) {
    && f.chain.process.Some?
    && f.chain.process.value.phase == Enter(i)
    && f.chain.process.value.completed == {}
    && f.hand.rows == 0
    && Marks(f.chain.log) == Upto(i)
    && (i > 5 ==> Tried(Flushed(DataAtRest), true) in f.chain.log)
  }

  lemma CalmEnter(x: Source, f: Fate, i: nat)
    requires Midway(f, i) && i < 7
    ensures var g := Follow(x, f, Tick(CALM));
            && g.chain == System(f.chain.log, Some(f.chain.process.value.(phase := Flush(i))))
            && g.hand == f.hand
  {
    PositionOf(i);
  }

  lemma CalmFlush(x: Source, f: Fate, i: nat)
    requires !StageFlushed(x) && f.chain.process.Some? && f.chain.process.value.phase == Flush(i) && i < 7
    ensures var g := Follow(x, f, Tick(CALM));
            && g.chain == System(f.chain.log + [Tried(Flushed(STAGES[i]), true)], Some(f.chain.process.value.(phase := Mark(i))))
            && g.hand.rows == f.hand.rows
  {
    TickOf(x, f, CALM);
    UnflushedStays(x, f.hand, f.chain.process.value, CALM);
  }

  lemma CalmMark(x: Source, f: Fate, i: nat)
    requires !StageFlushed(x) && f.chain.process.Some? && f.chain.process.value.phase == Mark(i) && i < 7
    ensures var g := Follow(x, f, Tick(CALM));
            && g.chain == System(f.chain.log + [Tried(Checkpointed(STAGES[i], false), true)],
                                 Some(f.chain.process.value.(phase := Enter(i + 1))))
            && g.hand.rows == f.hand.rows
  {
    TickOf(x, f, CALM);
    UnflushedStays(x, f.hand, f.chain.process.value, CALM);
  }

  lemma CalmTurn(x: Source, f: Fate, i: nat) returns (g: Fate)
    requires !StageFlushed(x) && Midway(f, i) && i < 7
    ensures Midway(g, i + 1)
    ensures g == Fold(Following(x), f, [Tick(CALM), Tick(CALM), Tick(CALM)])
  {
    CalmEnter(x, f, i);
    var entered := Follow(x, f, Tick(CALM));
    CalmFlush(x, entered, i);
    var flushed := Follow(x, entered, Tick(CALM));
    CalmMark(x, flushed, i);
    g := Follow(x, flushed, Tick(CALM));
    MarksSnoc(f.chain.log, Tried(Flushed(STAGES[i]), true));
    MarksSnoc(flushed.chain.log, Tried(Checkpointed(STAGES[i], false), true));
    UptoNext(i);
    PositionOf(i);
    ThreeSteps(Following(x), f, Tick(CALM));
  }

  lemma UnflushedStays(x: Source, h: Hand, r: Run, met: Conditions)
    requires !StageFlushed(x) && (r.phase.Flush? || r.phase.Mark?)
    ensures Tend(x, h, r, met).rows == h.rows
  {
  }

  lemma UptoNext(i: nat)
    requires i < |STAGES|
    ensures Upto(i + 1) == Upto(i) + {STAGES[i]}
  {
    PositionOf(i);
    forall s: Stage ensures s in Upto(i + 1) <==> s in Upto(i) || s == STAGES[i] {
    }
  }

  lemma TwoSteps<S, E>(f: (S, E) -> S, s: S, a: E, b: E)
    ensures Fold(f, s, [a, b]) == f(f(s, a), b)
  {
    assert [a, b][..1] == [a] && [a][..0] == [];
    assert Fold(f, s, [a]) == f(s, a);
  }

  lemma ThreeSteps<S, E>(f: (S, E) -> S, s: S, e: E)
    ensures Fold(f, s, [e, e, e]) == f(f(f(s, e), e), e)
  {
    TwoSteps(f, s, e, e);
    assert [e, e, e][..2] == [e, e];
  }

  lemma {:induction false} CalmTurns(x: Source, f: Fate, n: nat)
    requires !StageFlushed(x) && BuiltBy(x).Some? && Midway(f, 0) && n <= 7
    ensures Midway(Fold(Following(x), f, seq(3 * n, _ => Tick(CALM))), n)
    decreases n
  {
    if n > 0 {
      CalmTurns(x, f, n - 1);
      var before := seq(3 * (n - 1), _ => Tick(CALM));
      var three := [Tick(CALM), Tick(CALM), Tick(CALM)];
      var _ := CalmTurn(x, Fold(Following(x), f, before), n - 1);
      FoldAppend(Following(x), f, before, three);
      assert seq(3 * n, _ => Tick(CALM)) == before + three;
    } else {
      assert seq(0, _ => Tick(CALM)) == [];
    }
  }

  /** A first run as far as the data-at-rest checkpoint, in which nothing fails; its death; and a
      resume, likewise without trouble, to its end. */
  function FirstPart(): seq<Event> {
    [Boot(true), Tick(CALM)] + seq(18, _ => Tick(CALM)) + [Kill, Boot(true)]
  }

  function LostTrace(): seq<Event> {
    FirstPart() + seq(42, _ => Tick(CALM))
  }

  lemma FirstRunStarts(x: Source)
    ensures Midway(FateOf(x, [Boot(true), Tick(CALM)]), 0)
  {
    TwoSteps(Following(x), UNBORN, Boot(true), Tick(CALM));
    assert Marks([Tried(DiscoveryRow, true)]) == {} && Marks(FRESH.log) == {};
    var booted := Follow(x, UNBORN, Boot(true));
    assert booted.chain == System([], Some(Run({}, 0, Discover, {}))) && booted.hand == Hand(Newborn({}), false, 0);
    assert Upto(0) == {};
  }

  /** What a resume finds after a death right after the data-at-rest checkpoint. */
  ghost predicate LeftBehind(f: Fate) {
    && f.chain.process.Some?
    && f.chain.process.value.completed == Upto(6)
    && f.chain == Apply(System(f.chain.log, None), Boot(true))
    && Marks(f.chain.log) == Upto(6)
    && f.hand.rows == 0 && !f.hand.unsaved
    && Tried(Flushed(DataAtRest), true) in f.chain.log
  }

  lemma DiesAndResumes(x: Source, g: Fate)
    requires Midway(g, 6)
    ensures LeftBehind(Follow(x, Follow(x, g, Kill), Boot(true)))
  {
  }

  lemma FirstPartLeaves(x: Source)
    requires !StageFlushed(x) && BuiltBy(x) == Some(DataAtRest)
    ensures LeftBehind(FateOf(x, FirstPart()))
  {
    var start := [Boot(true), Tick(CALM)];
    var middle := seq(18, _ => Tick(CALM));
    FirstRunStarts(x);
    CalmTurns(x, FateOf(x, start), 6);
    FoldAppend(Following(x), UNBORN, start, middle);
    var g := FateOf(x, start + middle);
    FoldAppend(Following(x), UNBORN, start + middle, [Kill, Boot(true)]);
    TwoSteps(Following(x), g, Kill, Boot(true));
    DiesAndResumes(x, g);
  }

  /** Code-signing endpoints, and the error rows of the data-at-rest stage, are lost although that
      stage's flush committed and its checkpoint arrived: the process died before its final persist,
      and the resume, which skips the stage, finishes without them. */
  lemma CheckpointedRowsAreLost(x: Source)
    requires x == Codesign || x == Errors(DataAtRest)
    ensures var f := FateOf(x, LostTrace());
            && f.chain.process.Some? && f.chain.process.value.phase.Finished?
            && DataAtRest in Marks(f.chain.log)
            && Tried(Flushed(DataAtRest), true) in f.chain.log
            && f.hand.rows == 0
  {
    FirstPartLeaves(x);
    var f := FateOf(x, FirstPart());
    var ticks := seq(42, _ => Tick(CALM));
    FoldAppend(Following(x), UNBORN, FirstPart(), ticks);
    assert DataAtRest in Upto(6) && Reports !in Upto(6);
    SkippingAddsNothing(x, f, DataAtRest, ticks);
    ResumeCompletes(System(f.chain.log, None), true);
    ChainOfFold(x, f, ticks);
    LogOnlyGrows(f.chain, ticks, Tried(Flushed(DataAtRest), true));
  }

  lemma {:induction false} ChainOfFold(x: Source, f: Fate, trace: seq<Event>)
    ensures Fold(Following(x), f, trace).chain == Fold(Transition(), f.chain, trace)
    decreases |trace|
  {
    if |trace| > 0 {
      ChainOfFold(x, f, trace[..|trace| - 1]);
    }
  }

  lemma {:induction false} LogOnlyGrows(s: System, trace: seq<Event>, t: Tried)
    requires t in s.log
    ensures t in Fold(Transition(), s, trace).log
    decreases |trace|
  {
    if |trace| > 0 {
      var before, e := Fold(Transition(), s, trace[..|trace| - 1]), trace[|trace| - 1];
      LogOnlyGrows(s, trace[..|trace| - 1], t);
      if e.Tick? && before.process.Some? {
        StepLog(before.log, before.process.value, e.met);
      }
    }
  }
}
