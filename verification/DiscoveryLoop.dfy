/** The discovery loop as it is run: accumulators that grow batch by batch and a store
    that keeps what is durable. Each stretch of code is one or more steps of the machine. */
module DiscoveryLoop {
  import opened Discovery
  import opened DiscoveryProofs
  import opened DiscoveryAnswers
  import opened DiscoveryDisk
  import opened Traces
  import opened Wrappers

  class ScanStore {
    var cache: map<nat, Payload>
    var log: seq<Write>

    constructor ()
      ensures Contents() == FRESH.disk
    {
      cache, log := map[], [];
    }

    ghost function Contents(): Disk
      reads this
    {
      Disk(cache, log)
    }

    method SaveCache(number: nat, payload: Payload)
      modifies this
      ensures Contents() == Disk(old(cache)[number := payload], old(log) + [Saved(number)])
    {
      cache := cache[number := payload];
      log := log + [Saved(number)];
    }

    /** Silent when it fails. */
    method WriteCheckpoint(row: Write, arrives: bool)
      modifies this
      ensures Contents() == Disk(old(cache), if arrives then old(log) + [row] else old(log))
    {
      if arrives {
        log := log + [row];
      }
    }
  }

  ghost function At(store: ScanStore, r: Run): System
    reads store
  {
    System(store.Contents(), Some(r))
  }

  method CheckLiveness(p: Prober, batch: seq<Host>) returns (targets: seq<Host>, advisories: seq<Advisory>)
    ensures targets == SweepTargets(p, batch)
    ensures advisories == Advisories(p, batch)
  {
    match p.liveness(batch)
    case Raised(_, _) =>
      targets, advisories := batch, [];
    case Returned(statuses) =>
      var down := DownHosts(statuses);
      targets, advisories := [], [];
      for i := 0 to |batch|
        invariant targets == Responsive(batch[..i], down)
        invariant advisories == Silent(batch[..i], down)
      {
        assert batch[..i + 1][..i] == batch[..i];
        if batch[i] in down {
          advisories := advisories + [NoResponse(batch[i])];
        } else {
          targets := targets + [batch[i]];
        }
      }
      assert batch[..|batch|] == batch;
  }

  lemma OneStep(plan: Plan, met: Conditions, s: System)
    ensures Iterate(Ticker(plan, met), s, 0) == s
    ensures Iterate(Ticker(plan, met), s, 1) == Apply(plan, s, Tick(met))
  {
    assert Iterate(Ticker(plan, met), s, 1) == Ticker(plan, met)(Iterate(Ticker(plan, met), s, 0));
  }

  /** The payload, then the checkpoint. */
  method RecordBatch(store: ScanStore, plan: Plan, met: Conditions, ghost r: Run, number: nat, payload: Payload)
    returns (ghost n: nat)
    requires r.next + 1 == number && r.phase == if plan.persist then Save(payload) else Count
    modifies store
    ensures Iterate(Ticker(plan, met), old(At(store, r)), n) == At(store, r.(phase := Count))
  {
    ghost var start := At(store, r);
    n := 0;
    if plan.persist {
      store.SaveCache(number, payload);
      OneStep(plan, met, start);
      ghost var mid := At(store, r.(phase := Mark));
      store.WriteCheckpoint(Marked(number), met.arrives(Marked(number)));
      OneStep(plan, met, mid);
      Chain(Ticker(plan, met), start, 1, mid, 1, At(store, r.(phase := Count)));
      n := 2;
    }
  }

  /** The sweep itself: its ports and a durable record, or an error row and neither. */
  method SweepHosts(store: ScanStore, plan: Plan, met: Conditions, ghost r: Run, number: nat,
                    targets: seq<Host>, advisories: seq<Advisory>, before: Tally)
    returns (tally: Tally, ghost n: nat)
    requires r.next + 1 == number && r.phase == Sweep(targets, advisories) && r.tally == before
    modifies store
    ensures Iterate(Ticker(plan, met), old(At(store, r)), n) == At(store, r.(phase := Count, tally := tally))
  {
    ghost var start := At(store, r);
    OneStep(plan, met, start);
    match SweepOutcome(met.prober, targets) {
      case Returned(found) =>
        tally := before.(ports := before.ports + found, swept := before.swept + targets);
        ghost var after := if plan.persist then Save(Payload(found, advisories)) else Count;
        ghost var mid := At(store, r.(phase := after, tally := tally));
        ghost var k := RecordBatch(store, plan, met, mid.process.value, number, Payload(found, advisories));
        Chain(Ticker(plan, met), start, 1, mid, k, At(store, r.(phase := Count, tally := tally)));
        n := 1 + k;
      case Raised(message, className) =>
        tally := before.(failures := before.failures + [FailedBatch(number, FailureText(Raised(message, className)))]);
        n := 1;
    }
  }

  /** Pre-pass and sweep of one batch that is not restored. */
  method ProbeBatch(store: ScanStore, plan: Plan, met: Conditions, ghost r: Run, number: nat, batch: seq<Host>, before: Tally)
    returns (tally: Tally, ghost n: nat)
    requires r.next < |plan.batches| && batch == plan.batches[r.next]
    requires r.next + 1 == number && r.phase.Fetch? && r.tally == before
    requires !(number in r.completed && number in store.cache)
    modifies store
    ensures Iterate(Ticker(plan, met), old(At(store, r)), n) == At(store, r.(phase := Count, tally := tally))
  {
    ghost var start := At(store, r);
    OneStep(plan, met, start);
    var targets, advisories := CheckLiveness(met.prober, batch);
    tally := before.(liveness := before.liveness + advisories);
    ghost var mid := At(store, r.(phase := Sweep(targets, advisories), tally := tally));
    ghost var k;
    tally, k := SweepHosts(store, plan, met, mid.process.value, number, targets, advisories, tally);
    Chain(Ticker(plan, met), start, 1, mid, k, At(store, r.(phase := Count, tally := tally)));
    n := 1 + k;
  }

  /** The bookkeeping that every batch gets. */
  lemma CountBatch(plan: Plan, met: Conditions, start: System, n: nat, d: Disk, r: Run)
    requires r.phase.Count? && r.next < |plan.batches|
    requires Iterate(Ticker(plan, met), start, n) == System(d, Some(r))
    ensures var t := r.tally.(checked := r.tally.checked + |plan.batches[r.next]|);
            Iterate(Ticker(plan, met), start, n + 1) == System(d, Some(r.(next := r.next + 1, phase := Fetch, tally := t)))
  {
    OneStep(plan, met, System(d, Some(r)));
    var t := r.tally.(checked := r.tally.checked + |plan.batches[r.next]|);
    Chain(Ticker(plan, met), start, n, System(d, Some(r)), 1, System(d, Some(r.(next := r.next + 1, phase := Fetch, tally := t))));
  }

  /** One turn of the loop: restored from its cache under an earlier checkpoint, or probed. */
  method ScanBatch(store: ScanStore, plan: Plan, met: Conditions, ghost r: Run, completed: set<nat>,
                   number: nat, batch: seq<Host>, before: Tally)
    returns (tally: Tally, ghost n: nat)
    requires r.next < |plan.batches| && batch == plan.batches[r.next]
    requires r.next + 1 == number && r.phase.Fetch? && r.tally == before && r.completed == completed
    modifies store
    ensures Iterate(Ticker(plan, met), old(At(store, r)), n) == At(store, r.(next := number, tally := tally))
  {
    if number in completed && number in store.cache {
      var cached := store.cache[number];
      tally := before.(ports := before.ports + cached.ports, liveness := before.liveness + cached.liveness,
                       restored := before.restored + {number}, checked := before.checked + |batch|);
      n := 1;
      OneStep(plan, met, At(store, r));
    } else {
      ghost var start := At(store, r);
      tally, n := ProbeBatch(store, plan, met, r, number, batch, before);
      CountBatch(plan, met, start, n, store.Contents(), r.(phase := Count, tally := tally));
      tally := tally.(checked := tally.checked + |batch|);
      n := n + 1;
    }
  }

  function Closed(plan: Plan, met: Conditions, d: Disk, tally: Tally): (Disk, bool) {
    var row := StageMarked(tally.failures != []);
    (if plan.persist then Recorded(d, row, met) else d, plan.persist && met.arrives(row))
  }

  /** After the last batch, two steps: leaving the loop, and the stage checkpoint. */
  lemma CloseSteps(plan: Plan, met: Conditions, start: System, n: nat, d: Disk, r: Run)
    requires r.next == |plan.batches| && r.phase.Fetch?
    requires Iterate(Ticker(plan, met), start, n) == System(d, Some(r))
    ensures var (d', recorded) := Closed(plan, met, d, r.tally);
            Iterate(Ticker(plan, met), start, n + 2) == System(d', Some(r.(phase := Finished(recorded))))
  {
    var (d', recorded) := Closed(plan, met, d, r.tally);
    var closing, finished := System(d, Some(r.(phase := Close))), System(d', Some(r.(phase := Finished(recorded))));
    OneStep(plan, met, System(d, Some(r)));
    OneStep(plan, met, closing);
    Chain(Ticker(plan, met), start, n, System(d, Some(r)), 1, closing);
    Chain(Ticker(plan, met), start, n + 1, closing, 1, finished);
  }

  /** The stage checkpoint after the loop. */
  method CloseStage(store: ScanStore, plan: Plan, met: Conditions, tally: Tally) returns (recorded: bool)
    modifies store
    ensures (store.Contents(), recorded) == Closed(plan, met, old(store.Contents()), tally)
  {
    var row := StageMarked(tally.failures != []);
    if plan.persist {
      store.WriteCheckpoint(row, met.arrives(row));
    }
    recorded := plan.persist && met.arrives(row);
  }

  /** The hosts not yet sliced make up the batches from `k` on. */
  ghost predicate Left(pending: seq<Host>, m: nat, bs: seq<seq<Host>>, k: nat)
    requires m > 0
  {
    k <= |bs| && Batches(pending, m) == bs[k..]
  }

  lemma NextBatch(pending: seq<Host>, m: nat, bs: seq<seq<Host>>, k: nat)
    requires m > 0 && pending != [] && Left(pending, m, bs, k)
    ensures var size := if |pending| < m then |pending| else m;
            k < |bs| && bs[k] == pending[..size] && Left(pending[size..], m, bs, k + 1)
  {
    assert bs[k..][1..] == bs[k + 1..];
  }

  /** One turn: the next slice of the hosts is scanned as batch `batchNum + 1`. */
  method TakeBatch(store: ScanStore, pending: seq<Host>, m: nat, plan: Plan, met: Conditions, completed: set<nat>,
                   batchNum: nat, before: Tally, ghost r: Run)
    returns (rest: seq<Host>, tally: Tally, ghost n: nat)
    requires m > 0 && pending != [] && Left(pending, m, plan.batches, batchNum)
    requires r.completed == completed && r.next == batchNum && r.phase == Fetch && r.tally == before
    modifies store
    ensures |rest| < |pending| && Left(rest, m, plan.batches, batchNum + 1)
    ensures Iterate(Ticker(plan, met), old(At(store, r)), n) == At(store, r.(next := batchNum + 1, tally := tally))
  {
    NextBatch(pending, m, plan.batches, batchNum);
    var size := if |pending| < m then |pending| else m;
    rest := pending[size..];
    tally, n := ScanBatch(store, plan, met, r, completed, batchNum + 1, pending[..size], before);
  }

  lemma Onward(plan: Plan, met: Conditions, start: System, a: nat, mid: System, b: nat, t: System) returns (n: nat)
    requires Iterate(Ticker(plan, met), start, a) == mid && Iterate(Ticker(plan, met), mid, b) == t
    ensures Iterate(Ticker(plan, met), start, n) == t
  {
    Chain(Ticker(plan, met), start, a, mid, b, t);
    n := a + b;
  }

  /** The loop over the batches. */
  method ScanBatches(store: ScanStore, hosts: seq<Host>, m: nat, plan: Plan, met: Conditions,
                     completed: set<nat>, ghost base: nat)
    returns (tally: Tally, ghost n: nat)
    requires m > 0 && plan.batches == Batches(hosts, m)
    modifies store
    ensures Iterate(Ticker(plan, met), old(At(store, Run(completed, base, 0, Fetch, InitialTally(plan)))), n) ==
            At(store, Run(completed, base, |plan.batches|, Fetch, tally))
  {
    tally := InitialTally(plan);
    ghost var start := At(store, Run(completed, base, 0, Fetch, tally));
    OneStep(plan, met, start);
    n := 0;
    var batchNum := 0;
    var pending := hosts;
    assert plan.batches[0..] == plan.batches;
    while pending != []
      invariant Left(pending, m, plan.batches, batchNum)
      invariant Iterate(Ticker(plan, met), start, n) == At(store, Run(completed, base, batchNum, Fetch, tally))
      decreases |pending|
    {
      ghost var r := Run(completed, base, batchNum, Fetch, tally);
      ghost var mid := At(store, r);
      ghost var k;
      pending, tally, k := TakeBatch(store, pending, m, plan, met, completed, batchNum, tally, r);
      batchNum := batchNum + 1;
      n := Onward(plan, met, start, n, mid, k, At(store, Run(completed, base, batchNum, Fetch, tally)));
    }
  }

  /** One uninterrupted discovery run over whatever the store holds: `n` steps of the machine. */
  method RunBatches(store: ScanStore, hosts: seq<Host>, m: nat, plan: Plan, met: Conditions,
                    completed: set<nat>, ghost base: nat)
    returns (tally: Tally, recorded: bool, ghost n: nat)
    requires m > 0 && plan.batches == Batches(hosts, m)
    modifies store
    ensures Iterate(Ticker(plan, met), old(At(store, Run(completed, base, 0, Fetch, InitialTally(plan)))), n) ==
            At(store, Run(completed, base, |plan.batches|, Finished(recorded), tally))
  {
    ghost var start := At(store, Run(completed, base, 0, Fetch, InitialTally(plan)));
    tally, n := ScanBatches(store, hosts, m, plan, met, completed, base);
    CloseSteps(plan, met, start, n, store.Contents(), Run(completed, base, |plan.batches|, Fetch, tally));
    recorded := CloseStage(store, plan, met, tally);
    n := n + 2;
  }

  lemma {:induction false} IterateFaithful(plan: Plan, met: Conditions, s: System, n: nat)
    requires Faithful(plan, met.prober, s)
    ensures Faithful(plan, met.prober, Iterate(Ticker(plan, met), s, n))
    decreases n
  {
    if n > 0 {
      IterateFaithful(plan, met, s, n - 1);
      ApplyFaithful(plan, met.prober, Iterate(Ticker(plan, met), s, n - 1), Tick(met));
    }
  }

  /** A run, fresh or resumed, over a store left by any history with the same prober. Batch by batch
      it returns what the prober answers, whatever was cached or checkpointed before; every host is
      counted and accounted for; and the store is left with just the rows and entries of this run
      besides those it had. */
  method DiscoverBatches(store: ScanStore, hosts: seq<Host>, m: nat, plan: Plan, met: Conditions, loaded: bool)
    returns (tally: Tally)
    requires m > 0 && plan.batches == Batches(hosts, m)
    requires Faithful(plan, met.prober, System(store.Contents(), None))
    modifies store
    ensures Answered(plan, met.prober, tally)
    ensures tally.checked == |hosts|
    ensures forall i, h :: 0 <= i < |plan.batches| && h in plan.batches[i] ==> Accounted(tally, i + 1, h)
    ensures Leaves(plan, met, loaded, old(store.Contents()), store.Contents(), tally)
    ensures TrueEntries(plan, met.prober, store.cache)
    ensures var ys := Yields(met.prober, plan.batches);
            && tally.ports == ExpectedPorts(ys, |ys|)
            && tally.liveness == ExpectedLiveness(InitialTally(plan).liveness, ys, |ys|)
            && tally.failures == ExpectedFailures(ys, |ys|)
    ensures Faithful(plan, met.prober, System(store.Contents(), None))
  {
    var completed := if loaded then MarkedNumbers(store.log) else {};
    ghost var start := Apply(plan, System(store.Contents(), None), Boot(loaded));
    ghost var n;
    var recorded;
    tally, recorded, n := RunBatches(store, hosts, m, plan, met, completed, |store.log|);
    ApplyFaithful(plan, met.prober, System(old(store.Contents()), None), Boot(loaded));
    IterateFaithful(plan, met, start, n);
    RunLeaves(plan, met, loaded, old(store.Contents()), n);
    BatchesFlatten(hosts, m);
  }
}
