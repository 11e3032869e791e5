/** What one undisturbed discovery run writes, in the answers of the two nmap calls alone. */
module DiscoveryDisk {
  import opened Discovery
  import opened DiscoveryProofs
  import opened DiscoveryAnswers
  import opened Sequences
  import opened Traces
  import opened Wrappers

  // ---------------------------------------------------------------- what is left

  /** The batch was checkpointed before, that was seen, and its results are still there. */
  ghost predicate Restorable(loaded: bool, d0: Disk, n: nat) {
    loaded && Marked(n) in d0.log && n in d0.cache
  }

  /** The run writes the batch: it is to be kept, was not restored, and its sweep did not fail. */
  ghost predicate Kept(plan: Plan, p: Prober, loaded: bool, d0: Disk, n: nat) {
    && plan.persist
    && 1 <= n <= |plan.batches|
    && !Restorable(loaded, d0, n)
    && FailureTold(p, plan.batches[n - 1], n, [])
  }

  /** The payload, then the checkpoint, if that arrives. */
  ghost function RowsFine(plan: Plan, met: Conditions, loaded: bool, d0: Disk): (nat, seq<Write>) -> bool {
    (i: nat, rows: seq<Write>) =>
      rows == if !Kept(plan, met.prober, loaded, d0, i + 1) then []
              else if met.arrives(Marked(i + 1)) then [Saved(i + 1), Marked(i + 1)]
              else [Saved(i + 1)]
  }

  /** The hosts that were swept, in the batches that were neither restored nor failed. */
  ghost function SweptFine(plan: Plan, p: Prober, loaded: bool, d0: Disk): (nat, seq<Host>) -> bool {
    (i: nat, swept: seq<Host>) =>
      i < |plan.batches|
      && if !Restorable(loaded, d0, i + 1) && FailureTold(p, plan.batches[i], i + 1, [])
         then ToSweep(p, plan.batches[i], swept)
         else swept == []
  }

  ghost function StageRow(plan: Plan, met: Conditions, t: Tally): seq<Write> {
    if plan.persist && met.arrives(StageMarked(|t.failures| > 0)) then [StageMarked(|t.failures| > 0)] else []
  }

  /** What a run over the disk `d0` leaves: rows batch by batch and then the stage's, and the entries
      of the batches it wrote besides those there were. */
  ghost predicate Leaves(plan: Plan, met: Conditions, loaded: bool, d0: Disk, d: Disk, t: Tally) {
    var n := |plan.batches|;
    && (exists rows :: Pieced(rows, n, RowsFine(plan, met, loaded, d0)) && d.log == d0.log + rows + StageRow(plan, met, t))
    && (forall k :: k in d.cache <==> k in d0.cache || Kept(plan, met.prober, loaded, d0, k))
    && (forall k :: k in d0.cache && !Kept(plan, met.prober, loaded, d0, k) ==> k in d.cache && d.cache[k] == d0.cache[k])
    && (forall k :: k in t.restored <==> 1 <= k <= n && Restorable(loaded, d0, k))
    && Pieced(t.swept, n, SweptFine(plan, met.prober, loaded, d0))
  }

  // ---------------------------------------------------------------- as the machine does it

  datatype Job = Job(plan: Plan, met: Conditions, loaded: bool, d0: Disk)

  ghost function YieldAt(j: Job, n: nat): Yield
    requires 1 <= n <= |j.plan.batches|
  {
    YieldOf(j.met.prober, j.plan.batches[n - 1])
  }

  ghost predicate Swept(j: Job, n: nat) {
    1 <= n <= |j.plan.batches| && !Restorable(j.loaded, j.d0, n) && !YieldAt(j, n).Fails()
  }

  ghost function Saving(j: Job, d: Disk, n: nat): Disk
    requires 1 <= n <= |j.plan.batches|
  {
    Disk(d.cache[n := Payload(YieldAt(j, n).Ports(), YieldAt(j, n).advisories)], d.log + [Saved(n)])
  }

  ghost function Marking(j: Job, d: Disk, n: nat): Disk {
    if j.met.arrives(Marked(n)) then d.(log := d.log + [Marked(n)]) else d
  }

  /** The disk when `n` batches are done. */
  ghost function After(j: Job, n: nat): Disk
    requires n <= |j.plan.batches|
    decreases n
  {
    if n == 0 then j.d0
    else if j.plan.persist && Swept(j, n) then Marking(j, Saving(j, After(j, n - 1), n), n)
    else After(j, n - 1)
  }

  ghost function SweptAfter(j: Job, n: nat): seq<Host>
    requires n <= |j.plan.batches|
    decreases n
  {
    if n == 0 then []
    else SweptAfter(j, n - 1) + if Swept(j, n) then SweepTargets(j.met.prober, j.plan.batches[n - 1]) else []
  }

  ghost predicate RestoredSoFar(j: Job, t: Tally, n: nat) {
    forall k :: k in t.restored <==> 1 <= k <= n && Restorable(j.loaded, j.d0, k)
  }

  ghost predicate Completed(j: Job, r: Run) {
    forall n :: n in r.completed <==> j.loaded && Marked(n) in j.d0.log
  }

  ghost predicate OnDisk(j: Job, d: Disk, r: Run) {
    var n := |j.plan.batches|;
    && r.next <= n
    && match r.phase
       case Fetch => d == After(j, r.next)
       case Sweep(_, _) => r.next < n && d == After(j, r.next) && !Restorable(j.loaded, j.d0, r.next + 1)
       case Save(_) => r.next < n && d == After(j, r.next) && j.plan.persist && Swept(j, r.next + 1)
       case Mark => r.next < n && j.plan.persist && Swept(j, r.next + 1) && d == Saving(j, After(j, r.next), r.next + 1)
       case Count => r.next < n && d == After(j, r.next + 1) && !Restorable(j.loaded, j.d0, r.next + 1)
       case Close => r.next == n && d == After(j, n)
       case Finished(_) => r.next == n && d == After(j, n).(log := After(j, n).log + StageRow(j.plan, j.met, r.tally))
  }

  ghost predicate OnTally(j: Job, r: Run) {
    && RestoredSoFar(j, r.tally, r.next)
    && Settled(r) <= |j.plan.batches|
    && r.tally.swept == SweptAfter(j, Settled(r))
  }

  ghost predicate Doing(j: Job, d: Disk, r: Run) {
    Completed(j, r) && OnDisk(j, d, r) && OnTally(j, r)
  }

  lemma {:induction false} StillThere(j: Job, k: nat, n: nat)
    requires n < k && n <= |j.plan.batches|
    ensures k in After(j, n).cache <==> k in j.d0.cache
    decreases n
  {
    if n > 0 {
      StillThere(j, k, n - 1);
    }
  }

  lemma FetchDoes(j: Job, d: Disk, r: Run)
    requires Doing(j, d, r) && r.phase.Fetch?
    ensures var (d', r') := Step(j.plan, j.met, d, r); Doing(j, d', r')
  {
    if r.next < |j.plan.batches| {
      StillThere(j, r.next + 1, r.next);
    }
  }

  lemma SweepDoes(j: Job, d: Disk, r: Run)
    requires Doing(j, d, r) && r.phase.Sweep?
    requires r.phase.targets == SweepTargets(j.met.prober, j.plan.batches[r.next])
    ensures var (d', r') := Step(j.plan, j.met, d, r); Doing(j, d', r')
  {
    assert YieldAt(j, r.next + 1).outcome == SweepOutcome(j.met.prober, r.phase.targets);
  }

  lemma SaveDoes(j: Job, d: Disk, r: Run)
    requires Doing(j, d, r) && r.phase.Save?
    requires r.phase.payload == Payload(YieldAt(j, r.next + 1).Ports(), YieldAt(j, r.next + 1).advisories)
    ensures var (d', r') := Step(j.plan, j.met, d, r); Doing(j, d', r')
  {
  }

  lemma MarkDoes(j: Job, d: Disk, r: Run)
    requires Doing(j, d, r) && r.phase.Mark?
    ensures var (d', r') := Step(j.plan, j.met, d, r); Doing(j, d', r')
  {
  }

  lemma CountDoes(j: Job, d: Disk, r: Run)
    requires Doing(j, d, r) && r.phase.Count?
    ensures var (d', r') := Step(j.plan, j.met, d, r); Doing(j, d', r')
  {
  }

  lemma CloseDoes(j: Job, d: Disk, r: Run)
    requires Doing(j, d, r) && r.phase.Close?
    ensures var (d', r') := Step(j.plan, j.met, d, r); Doing(j, d', r')
  {
    assert (r.tally.failures != []) == (|r.tally.failures| > 0);
  }

  ghost predicate AtWork(j: Job, s: System) {
    s.process.Some? && Doing(j, s.disk, s.process.value) && Faithful(j.plan, j.met.prober, s)
  }

  lemma StepDoes(j: Job, s: System)
    requires AtWork(j, s)
    ensures AtWork(j, Ticker(j.plan, j.met)(s))
  {
    var d, r := s.disk, s.process.value;
    ApplyFaithful(j.plan, j.met.prober, s, Tick(j.met));
    match r.phase
    case Fetch => FetchDoes(j, d, r);
    case Sweep(_, _) => SweepDoes(j, d, r);
    case Save(_) => SaveDoes(j, d, r);
    case Mark => MarkDoes(j, d, r);
    case Count => CountDoes(j, d, r);
    case Close => CloseDoes(j, d, r);
    case Finished(_) =>
  }

  lemma IterateDoes(j: Job, s: System, n: nat)
    requires AtWork(j, s)
    ensures AtWork(j, Iterate(Ticker(j.plan, j.met), s, n))
  {
    var holds := x => AtWork(j, x);
    forall x | holds(x) ensures holds(Ticker(j.plan, j.met)(x)) {
      StepDoes(j, x);
    }
    IterateInvariant(Ticker(j.plan, j.met), holds, s, n);
  }

  lemma BootDoes(j: Job)
    requires Faithful(j.plan, j.met.prober, System(j.d0, None))
    ensures AtWork(j, Apply(j.plan, System(j.d0, None), Boot(j.loaded)))
  {
    ApplyFaithful(j.plan, j.met.prober, System(j.d0, None), Boot(j.loaded));
  }

  // ---------------------------------------------------------------- said without the machine

  lemma SweptIs(j: Job, n: nat)
    requires 1 <= n <= |j.plan.batches|
    ensures FailureTold(j.met.prober, j.plan.batches[n - 1], n, []) <==> !YieldAt(j, n).Fails()
    ensures Kept(j.plan, j.met.prober, j.loaded, j.d0, n) <==> j.plan.persist && Swept(j, n)
  {
    var p, batch := j.met.prober, j.plan.batches[n - 1];
    YieldTells(p, batch, n);
    if FailureTold(p, batch, n, []) && YieldAt(j, n).Fails() {
      FailureIsOne(p, batch, n, [], YieldAt(j, n).Failures(n));
    }
  }

  lemma FailureIsOne(p: Prober, batch: seq<Host>, number: nat, a: seq<FailedBatch>, b: seq<FailedBatch>)
    requires FailureTold(p, batch, number, a) && FailureTold(p, batch, number, b)
    ensures a == b
  {
    var ts :| ToSweep(p, batch, ts) &&
      a == if ts != [] && p.sweep(ts).Raised?
           then [FailedBatch(number, if p.sweep(ts).message == "" then p.sweep(ts).className else p.sweep(ts).message)]
           else [];
    var us :| ToSweep(p, batch, us) &&
      b == if us != [] && p.sweep(us).Raised?
           then [FailedBatch(number, if p.sweep(us).message == "" then p.sweep(us).className else p.sweep(us).message)]
           else [];
    FilteredUnique(batch, NotDown(p, batch), Itself(), ts, us);
  }

  ghost function RowsOf(j: Job, n: nat): seq<Write>
    requires 1 <= n <= |j.plan.batches|
  {
    if !(j.plan.persist && Swept(j, n)) then []
    else if j.met.arrives(Marked(n)) then [Saved(n), Marked(n)]
    else [Saved(n)]
  }

  ghost function RowsAfter(j: Job, n: nat): seq<Write>
    requires n <= |j.plan.batches|
    decreases n
  {
    if n == 0 then [] else RowsAfter(j, n - 1) + RowsOf(j, n)
  }

  lemma AfterNext(j: Job, n: nat, log: seq<Write>)
    requires n < |j.plan.batches| && After(j, n).log == j.d0.log + log
    ensures After(j, n + 1).log == j.d0.log + (log + RowsOf(j, n + 1))
  {
  }

  lemma {:induction false} LogAfter(j: Job, n: nat)
    requires n <= |j.plan.batches|
    ensures After(j, n).log == j.d0.log + RowsAfter(j, n)
    decreases n
  {
    if n > 0 {
      LogAfter(j, n - 1);
      AfterNext(j, n - 1, RowsAfter(j, n - 1));
    }
  }

  lemma RowsNext(j: Job, n: nat, rows: seq<Write>)
    requires n < |j.plan.batches| && Pieced(rows, n, RowsFine(j.plan, j.met, j.loaded, j.d0))
    ensures Pieced(rows + RowsOf(j, n + 1), n + 1, RowsFine(j.plan, j.met, j.loaded, j.d0))
  {
    SweptIs(j, n + 1);
    PiecedSnoc(rows, n, RowsFine(j.plan, j.met, j.loaded, j.d0), RowsOf(j, n + 1));
  }

  lemma {:induction false} RowsArePieced(j: Job, n: nat)
    requires n <= |j.plan.batches|
    ensures Pieced(RowsAfter(j, n), n, RowsFine(j.plan, j.met, j.loaded, j.d0))
    decreases n
  {
    if n == 0 {
      PiecedNone(RowsFine(j.plan, j.met, j.loaded, j.d0));
    } else {
      RowsArePieced(j, n - 1);
      RowsNext(j, n - 1, RowsAfter(j, n - 1));
    }
  }

  lemma SweptNext(j: Job, n: nat, swept: seq<Host>)
    requires n < |j.plan.batches| && Pieced(swept, n, SweptFine(j.plan, j.met.prober, j.loaded, j.d0))
    ensures var last := if Swept(j, n + 1) then SweepTargets(j.met.prober, j.plan.batches[n]) else [];
            Pieced(swept + last, n + 1, SweptFine(j.plan, j.met.prober, j.loaded, j.d0))
  {
    SweptIs(j, n + 1);
    TargetsAreTheRest(j.met.prober, j.plan.batches[n]);
    PiecedSnoc(swept, n, SweptFine(j.plan, j.met.prober, j.loaded, j.d0),
               if Swept(j, n + 1) then SweepTargets(j.met.prober, j.plan.batches[n]) else []);
  }

  lemma {:induction false} SweptIsPieced(j: Job, n: nat)
    requires n <= |j.plan.batches|
    ensures Pieced(SweptAfter(j, n), n, SweptFine(j.plan, j.met.prober, j.loaded, j.d0))
    decreases n
  {
    if n == 0 {
      PiecedNone(SweptFine(j.plan, j.met.prober, j.loaded, j.d0));
    } else {
      SweptIsPieced(j, n - 1);
      SweptNext(j, n - 1, SweptAfter(j, n - 1));
    }
  }

  lemma {:induction false} CacheAfter(j: Job, n: nat, k: nat)
    requires n <= |j.plan.batches|
    ensures k in After(j, n).cache <==> k in j.d0.cache || (1 <= k <= n && j.plan.persist && Swept(j, k))
    ensures k in j.d0.cache && !(1 <= k <= n && j.plan.persist && Swept(j, k)) ==> After(j, n).cache[k] == j.d0.cache[k]
    decreases n
  {
    if n > 0 {
      CacheAfter(j, n - 1, k);
    }
  }

  lemma AllLeft(j: Job, d: Disk, r: Run)
    requires Doing(j, d, r) && r.phase.Finished?
    ensures Leaves(j.plan, j.met, j.loaded, j.d0, d, r.tally)
  {
    var n := |j.plan.batches|;
    LogAfter(j, n);
    RowsArePieced(j, n);
    SweptIsPieced(j, n);
    assert d.log == j.d0.log + RowsAfter(j, n) + StageRow(j.plan, j.met, r.tally);
    forall k: nat
      ensures k in d.cache <==> k in j.d0.cache || Kept(j.plan, j.met.prober, j.loaded, j.d0, k)
      ensures k in j.d0.cache && !Kept(j.plan, j.met.prober, j.loaded, j.d0, k) ==> k in d.cache && d.cache[k] == j.d0.cache[k]
    {
      CacheAfter(j, n, k);
      if 1 <= k <= n {
        SweptIs(j, k);
      }
    }
  }

  /** The hosts of the batches done are accounted for, and counted. */
  ghost predicate Counted(plan: Plan, s: System) {
    s.process.Some? && Located(plan.batches, s.process.value) && Conserved(plan.batches, s.process.value)
  }

  lemma IterateCounts(plan: Plan, met: Conditions, s: System, n: nat)
    requires Counted(plan, s)
    ensures Counted(plan, Iterate(Ticker(plan, met), s, n))
  {
    var holds := x => Counted(plan, x);
    forall x: System | holds(x) ensures holds(Ticker(plan, met)(x)) {
      StepConserved(plan, met, x.disk, x.process.value);
    }
    IterateInvariant(Ticker(plan, met), holds, s, n);
  }

  /** One boot and any number of steps over any disk the same prober has left: an ended run leaves
      there just what it is to leave. */
  lemma RunLeaves(plan: Plan, met: Conditions, loaded: bool, d0: Disk, n: nat)
    requires Faithful(plan, met.prober, System(d0, None))
    ensures var s := Iterate(Ticker(plan, met), Apply(plan, System(d0, None), Boot(loaded)), n);
            Ended(s) ==>
              && Leaves(plan, met, loaded, d0, s.disk, s.process.value.tally)
              && Answered(plan, met.prober, s.process.value.tally)
              && TrueEntries(plan, met.prober, s.disk.cache)
              && s.process.value.tally.checked == |Flatten(plan.batches)|
              && (forall i, h :: 0 <= i < |plan.batches| && h in plan.batches[i] ==>
                    Accounted(s.process.value.tally, i + 1, h))
  {
    var j := Job(plan, met, loaded, d0);
    BootDoes(j);
    IterateCounts(plan, met, Apply(plan, System(d0, None), Boot(loaded)), n);
    assert plan.batches[..|plan.batches|] == plan.batches;
    IterateDoes(j, Apply(plan, System(d0, None), Boot(loaded)), n);
    var s := Iterate(Ticker(plan, met), Apply(plan, System(d0, None), Boot(loaded)), n);
    TrueCacheTells(plan, met.prober, s.disk);
    if Ended(s) {
      AllLeft(j, s.disk, s.process.value);
      ExpectedIsAnswered(plan, met.prober, s.process.value.tally);
    }
  }
}
