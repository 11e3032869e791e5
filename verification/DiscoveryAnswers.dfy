/** What a discovery run ends with and leaves behind, in the answers of the two nmap calls alone. */
module DiscoveryAnswers {
  import opened Discovery
  import opened DiscoveryProofs
  import opened Sequences
  import opened Traces
  import opened Wrappers

  // ---------------------------------------------------------------- what the answers say

  /** The pre-pass said so. */
  ghost predicate Down(p: Prober, batch: seq<Host>, h: Host) {
    p.liveness(batch).Returned? && HostStatus(h, false) in p.liveness(batch).value
  }

  ghost function IsDown(p: Prober, batch: seq<Host>): Host -> bool {
    h => Down(p, batch, h)
  }

  ghost function NotDown(p: Prober, batch: seq<Host>): Host -> bool {
    h => !Down(p, batch, h)
  }

  ghost function Notice(): Host -> Advisory {
    h => NoResponse(h)
  }

  /** Everything in the batch that was not said to be down. */
  ghost predicate ToSweep(p: Prober, batch: seq<Host>, ts: seq<Host>) {
    Filtered(batch, NotDown(p, batch), Itself(), ts)
  }

  /** An advisory for everything that was. */
  ghost predicate Advised(p: Prober, batch: seq<Host>, advisories: seq<Advisory>) {
    Filtered(batch, IsDown(p, batch), Notice(), advisories)
  }

  /** The ports are those the sweep returned; none if it raised, or if there was nothing to sweep. */
  ghost predicate PortsTold(p: Prober, batch: seq<Host>, found: seq<OpenPort>) {
    exists ts :: ToSweep(p, batch, ts) &&
      found == if ts != [] && p.sweep(ts).Returned? then p.sweep(ts).value else []
  }

  /** One row if the sweep raised, with its message or else its class, and none otherwise. */
  ghost predicate FailureTold(p: Prober, batch: seq<Host>, number: nat, rows: seq<FailedBatch>) {
    exists ts :: ToSweep(p, batch, ts) &&
      rows == if ts != [] && p.sweep(ts).Raised?
              then [FailedBatch(number, if p.sweep(ts).message == "" then p.sweep(ts).className else p.sweep(ts).message)]
              else []
  }

  ghost function PortsFine(p: Prober, bs: seq<seq<Host>>): (nat, seq<OpenPort>) -> bool {
    (i: nat, found: seq<OpenPort>) => i < |bs| && PortsTold(p, bs[i], found)
  }

  ghost function FailuresFine(p: Prober, bs: seq<seq<Host>>): (nat, seq<FailedBatch>) -> bool {
    (i: nat, rows: seq<FailedBatch>) => i < |bs| && FailureTold(p, bs[i], i + 1, rows)
  }

  ghost function AdvisedFine(p: Prober, bs: seq<seq<Host>>): (nat, seq<Advisory>) -> bool {
    (i: nat, advisories: seq<Advisory>) => i < |bs| && Advised(p, bs[i], advisories)
  }

  ghost predicate PortsAll(p: Prober, bs: seq<seq<Host>>, n: nat, ports: seq<OpenPort>)
    requires n <= |bs|
  {
    Pieced(ports, n, PortsFine(p, bs))
  }

  ghost predicate FailuresAll(p: Prober, bs: seq<seq<Host>>, n: nat, failures: seq<FailedBatch>)
    requires n <= |bs|
  {
    Pieced(failures, n, FailuresFine(p, bs))
  }

  ghost predicate AdvisedAll(p: Prober, bs: seq<seq<Host>>, n: nat, advisories: seq<Advisory>)
    requires n <= |bs|
  {
    Pieced(advisories, n, AdvisedFine(p, bs))
  }

  /** Batch by batch, the accumulators hold what the prober answered. */
  ghost predicate Answered(plan: Plan, p: Prober, t: Tally) {
    var bs := plan.batches;
    && PortsAll(p, bs, |bs|, t.ports)
    && FailuresAll(p, bs, |bs|, t.failures)
    && exists rest ::
         && AdvisedAll(p, bs, |bs|, rest)
         && t.liveness == (if plan.rawSocket == Some(true) then [] else [PrivilegeFallback]) + rest
  }

  /** So does every cache entry. */
  ghost predicate TrueEntries(plan: Plan, p: Prober, cache: map<nat, Payload>) {
    forall n :: n in cache ==> TrueEntry(plan, p, n, cache[n])
  }

  // ---------------------------------------------------------------- one batch

  lemma DownIs(p: Prober, batch: seq<Host>, h: Host)
    requires p.liveness(batch).Returned?
    ensures h in DownHosts(p.liveness(batch).value) <==> Down(p, batch, h)
  {
    if h in DownHosts(p.liveness(batch).value) {
      var s :| s in p.liveness(batch).value && !s.up && s.host == h;
      assert s == HostStatus(h, false);
    }
    if Down(p, batch, h) {
      assert HostStatus(h, false) in p.liveness(batch).value;
    }
  }

  lemma {:induction false} ResponsiveIs(part: seq<Host>, down: set<Host>, keep: Host -> bool)
    requires forall h :: keep(h) <==> h !in down
    ensures Filtered(part, keep, Itself(), Responsive(part, down))
    decreases |part|
  {
    if |part| == 0 {
      FilteredNone(keep, Itself());
    } else {
      var front := part[..|part| - 1];
      ResponsiveIs(front, down, keep);
      FilteredLast(part, keep, Itself(), Responsive(front, down), Responsive(part, down));
    }
  }

  lemma {:induction false} SilentIs(part: seq<Host>, down: set<Host>, keep: Host -> bool)
    requires forall h :: keep(h) <==> h in down
    ensures Filtered(part, keep, Notice(), Silent(part, down))
    decreases |part|
  {
    if |part| == 0 {
      FilteredNone(keep, Notice());
    } else {
      var front := part[..|part| - 1];
      SilentIs(front, down, keep);
      FilteredLast(part, keep, Notice(), Silent(front, down), Silent(part, down));
    }
  }

  lemma SplitIs(p: Prober, batch: seq<Host>)
    requires p.liveness(batch).Returned?
    ensures var down := DownHosts(p.liveness(batch).value);
            && Filtered(batch, NotDown(p, batch), Itself(), Responsive(batch, down))
            && Filtered(batch, IsDown(p, batch), Notice(), Silent(batch, down))
  {
    var down := DownHosts(p.liveness(batch).value);
    forall h ensures NotDown(p, batch)(h) <==> h !in down {
      DownIs(p, batch, h);
    }
    forall h ensures IsDown(p, batch)(h) <==> h in down {
      DownIs(p, batch, h);
    }
    ResponsiveIs(batch, down, NotDown(p, batch));
    SilentIs(batch, down, IsDown(p, batch));
  }

  lemma {:induction false} NobodyDown(p: Prober, batch: seq<Host>, part: seq<Host>)
    requires p.liveness(batch).Raised?
    ensures Filtered(part, IsDown(p, batch), Notice(), [])
    decreases |part|
  {
    if |part| == 0 {
      FilteredNone(IsDown(p, batch), Notice());
    } else {
      NobodyDown(p, batch, part[..|part| - 1]);
      FilteredLast(part, IsDown(p, batch), Notice(), [], []);
    }
  }

  /** The sweep targets and the advisories of a batch are what the pre-pass's answer makes them. */
  lemma TargetsAreTheRest(p: Prober, batch: seq<Host>)
    ensures ToSweep(p, batch, SweepTargets(p, batch))
    ensures Advised(p, batch, Advisories(p, batch))
  {
    if p.liveness(batch).Returned? {
      SplitIs(p, batch);
    } else {
      FilteredAll(batch, NotDown(p, batch), Itself());
      NobodyDown(p, batch, batch);
    }
  }

  lemma PortsAreTold(p: Prober, batch: seq<Host>)
    ensures PortsTold(p, batch, YieldOf(p, batch).Ports())
  {
    TargetsAreTheRest(p, batch);
    var ts := SweepTargets(p, batch);
    assert ToSweep(p, batch, ts) &&
      YieldOf(p, batch).Ports() == if ts != [] && p.sweep(ts).Returned? then p.sweep(ts).value else [];
  }

  lemma FailureIsTold(p: Prober, batch: seq<Host>, number: nat)
    ensures FailureTold(p, batch, number, YieldOf(p, batch).Failures(number))
  {
    TargetsAreTheRest(p, batch);
    var ts := SweepTargets(p, batch);
    assert ToSweep(p, batch, ts) &&
      YieldOf(p, batch).Failures(number) ==
        if ts != [] && p.sweep(ts).Raised?
        then [FailedBatch(number, if p.sweep(ts).message == "" then p.sweep(ts).className else p.sweep(ts).message)]
        else [];
  }

  lemma YieldTells(p: Prober, batch: seq<Host>, number: nat)
    ensures var y := YieldOf(p, batch);
            PortsTold(p, batch, y.Ports()) && FailureTold(p, batch, number, y.Failures(number)) && Advised(p, batch, y.advisories)
  {
    PortsAreTold(p, batch);
    FailureIsTold(p, batch, number);
    TargetsAreTheRest(p, batch);
  }

  // ---------------------------------------------------------------- all batches

  lemma PortsNext(p: Prober, bs: seq<seq<Host>>, n: nat, before: seq<OpenPort>, after: seq<OpenPort>)
    requires n < |bs| && PortsAll(p, bs, n, before) && after == before + YieldOf(p, bs[n]).Ports()
    ensures PortsAll(p, bs, n + 1, after)
  {
    YieldTells(p, bs[n], n + 1);
    PiecedSnoc(before, n, PortsFine(p, bs), YieldOf(p, bs[n]).Ports());
  }

  lemma FailuresNext(p: Prober, bs: seq<seq<Host>>, n: nat, before: seq<FailedBatch>, after: seq<FailedBatch>)
    requires n < |bs| && FailuresAll(p, bs, n, before) && after == before + YieldOf(p, bs[n]).Failures(n + 1)
    ensures FailuresAll(p, bs, n + 1, after)
  {
    YieldTells(p, bs[n], n + 1);
    PiecedSnoc(before, n, FailuresFine(p, bs), YieldOf(p, bs[n]).Failures(n + 1));
  }

  lemma AdvisedNext(p: Prober, bs: seq<seq<Host>>, n: nat, before: seq<Advisory>, after: seq<Advisory>)
    requires n < |bs| && AdvisedAll(p, bs, n, before) && after == before + YieldOf(p, bs[n]).advisories
    ensures AdvisedAll(p, bs, n + 1, after)
  {
    YieldTells(p, bs[n], n + 1);
    PiecedSnoc(before, n, AdvisedFine(p, bs), YieldOf(p, bs[n]).advisories);
  }

  lemma PortsOneMore(p: Prober, bs: seq<seq<Host>>, n: nat)
    requires 0 < n <= |bs| && PortsAll(p, bs, n - 1, ExpectedPorts(Yields(p, bs), n - 1))
    ensures PortsAll(p, bs, n, ExpectedPorts(Yields(p, bs), n))
  {
    assert Yields(p, bs)[n - 1] == YieldOf(p, bs[n - 1]);
    PortsNext(p, bs, n - 1, ExpectedPorts(Yields(p, bs), n - 1), ExpectedPorts(Yields(p, bs), n));
  }

  lemma {:induction false} PortsTell(p: Prober, bs: seq<seq<Host>>, n: nat)
    requires n <= |bs|
    ensures PortsAll(p, bs, n, ExpectedPorts(Yields(p, bs), n))
    decreases n
  {
    if n == 0 {
      PiecedNone(PortsFine(p, bs));
    } else {
      PortsTell(p, bs, n - 1);
      PortsOneMore(p, bs, n);
    }
  }

  lemma FailuresOneMore(p: Prober, bs: seq<seq<Host>>, n: nat)
    requires 0 < n <= |bs| && FailuresAll(p, bs, n - 1, ExpectedFailures(Yields(p, bs), n - 1))
    ensures FailuresAll(p, bs, n, ExpectedFailures(Yields(p, bs), n))
  {
    assert Yields(p, bs)[n - 1] == YieldOf(p, bs[n - 1]);
    FailuresNext(p, bs, n - 1, ExpectedFailures(Yields(p, bs), n - 1), ExpectedFailures(Yields(p, bs), n));
  }

  lemma {:induction false} FailuresTell(p: Prober, bs: seq<seq<Host>>, n: nat)
    requires n <= |bs|
    ensures FailuresAll(p, bs, n, ExpectedFailures(Yields(p, bs), n))
    decreases n
  {
    if n == 0 {
      PiecedNone(FailuresFine(p, bs));
    } else {
      FailuresTell(p, bs, n - 1);
      FailuresOneMore(p, bs, n);
    }
  }

  lemma {:induction false} LivenessFrom(first: seq<Advisory>, ys: seq<Yield>, n: nat)
    requires n <= |ys|
    ensures ExpectedLiveness(first, ys, n) == first + ExpectedLiveness([], ys, n)
    decreases n
  {
    if n > 0 {
      LivenessFrom(first, ys, n - 1);
      assert first + ExpectedLiveness([], ys, n - 1) + ys[n - 1].advisories ==
             first + (ExpectedLiveness([], ys, n - 1) + ys[n - 1].advisories);
    } else {
      assert first + [] == first;
    }
  }

  lemma LivenessOneMore(p: Prober, bs: seq<seq<Host>>, n: nat)
    requires 0 < n <= |bs| && AdvisedAll(p, bs, n - 1, ExpectedLiveness([], Yields(p, bs), n - 1))
    ensures AdvisedAll(p, bs, n, ExpectedLiveness([], Yields(p, bs), n))
  {
    assert Yields(p, bs)[n - 1] == YieldOf(p, bs[n - 1]);
    AdvisedNext(p, bs, n - 1, ExpectedLiveness([], Yields(p, bs), n - 1), ExpectedLiveness([], Yields(p, bs), n));
  }

  lemma {:induction false} LivenessTells(p: Prober, bs: seq<seq<Host>>, n: nat)
    requires n <= |bs|
    ensures AdvisedAll(p, bs, n, ExpectedLiveness([], Yields(p, bs), n))
    decreases n
  {
    if n == 0 {
      PiecedNone(AdvisedFine(p, bs));
    } else {
      LivenessTells(p, bs, n - 1);
      LivenessOneMore(p, bs, n);
    }
  }

  lemma ExpectedIsAnswered(plan: Plan, p: Prober, t: Tally)
    requires var ys := Yields(p, plan.batches);
             && t.ports == ExpectedPorts(ys, |ys|)
             && t.liveness == ExpectedLiveness(InitialTally(plan).liveness, ys, |ys|)
             && t.failures == ExpectedFailures(ys, |ys|)
    ensures Answered(plan, p, t)
  {
    PortsTell(p, plan.batches, |plan.batches|);
    FailuresTell(p, plan.batches, |plan.batches|);
    LivenessTells(p, plan.batches, |plan.batches|);
    LivenessFrom(InitialTally(plan).liveness, Yields(p, plan.batches), |plan.batches|);
  }

  ghost predicate TrueEntry(plan: Plan, p: Prober, n: nat, entry: Payload) {
    && 1 <= n <= |plan.batches|
    && PortsTold(p, plan.batches[n - 1], entry.ports)
    && Advised(p, plan.batches[n - 1], entry.liveness)
    && FailureTold(p, plan.batches[n - 1], n, [])
  }

  /** What is cached of a batch, whose sweep did not fail, is as told. */
  lemma UnfailedTells(p: Prober, batch: seq<Host>, n: nat, entry: Payload)
    requires !YieldOf(p, batch).Fails()
    requires entry == Payload(YieldOf(p, batch).Ports(), YieldOf(p, batch).advisories)
    ensures PortsTold(p, batch, entry.ports) && Advised(p, batch, entry.liveness) && FailureTold(p, batch, n, [])
  {
    YieldTells(p, batch, n);
    assert YieldOf(p, batch).Failures(n) == [];
  }

  lemma EntryTells(plan: Plan, p: Prober, d: Disk, n: nat)
    requires TrueCache(Yields(p, plan.batches), d) && n in d.cache
    ensures TrueEntry(plan, p, n, d.cache[n])
  {
    assert Yields(p, plan.batches)[n - 1] == YieldOf(p, plan.batches[n - 1]);
    UnfailedTells(p, plan.batches[n - 1], n, d.cache[n]);
  }

  lemma TrueCacheTells(plan: Plan, p: Prober, d: Disk)
    requires TrueCache(Yields(p, plan.batches), d)
    ensures TrueEntries(plan, p, d.cache)
  {
    forall n | n in d.cache ensures TrueEntry(plan, p, n, d.cache[n]) {
      EntryTells(plan, p, d, n);
    }
  }

  /** Over every history with one prober, an ended run has, batch by batch and in order, exactly the
      ports that the sweep of the batch's responsive hosts returned, a failure row where it raised,
      and an advisory for each host that did not respond; and whatever is in the cache is as true. */
  lemma ResultsAreTheAnswers(plan: Plan, p: Prober, trace: seq<Event>)
    requires Uniform(p, trace)
    ensures var s := Execute(plan, trace);
            && TrueEntries(plan, p, s.disk.cache)
            && (Ended(s) ==> Answered(plan, p, s.process.value.tally))
  {
    HistoryFaithful(plan, p, trace);
    var s := Execute(plan, trace);
    TrueCacheTells(plan, p, s.disk);
    if Ended(s) {
      ExpectedIsAnswered(plan, p, s.process.value.tally);
    }
  }

  /** The sweep of the batch's responsive hosts returned the port. */
  ghost predicate SweptUp(p: Prober, batch: seq<Host>, port: OpenPort) {
    exists ts :: ToSweep(p, batch, ts) && ts != [] && p.sweep(ts).Returned? && port in p.sweep(ts).value
  }

  lemma ToldPorts(p: Prober, batch: seq<Host>, found: seq<OpenPort>, port: OpenPort)
    requires PortsTold(p, batch, found)
    ensures port in found <==> SweptUp(p, batch, port)
  {
    var ts :| ToSweep(p, batch, ts) && found == if ts != [] && p.sweep(ts).Returned? then p.sweep(ts).value else [];
    forall us | ToSweep(p, batch, us) ensures us == ts {
      FilteredUnique(batch, NotDown(p, batch), Itself(), us, ts);
    }
  }

  /** A port is reported if and only if the sweep of some batch's responsive hosts returned it. */
  lemma PortsComeFromSweeps(plan: Plan, p: Prober, t: Tally, port: OpenPort)
    requires Answered(plan, p, t)
    ensures port in t.ports <==> exists i :: 0 <= i < |plan.batches| && SweptUp(p, plan.batches[i], port)
  {
    var bs := plan.batches;
    var at: seq<nat> :| Cuts(t.ports, at, |bs|) && forall i :: 0 <= i < |bs| ==> PortsFine(p, bs)(i, Piece(t.ports, at, i));
    forall i | 0 <= i < |bs| ensures port in Piece(t.ports, at, i) <==> SweptUp(p, bs[i], port) {
      ToldPorts(p, bs[i], Piece(t.ports, at, i), port);
    }
    if port in t.ports {
      var k :| 0 <= k < |t.ports| && t.ports[k] == port;
      var i := PieceHolding(t.ports, at, |bs|, k);
      assert port == Piece(t.ports, at, i)[k - at[i]];
    }
  }

  lemma {:induction false} PieceHolding<T>(whole: seq<T>, at: seq<nat>, n: nat, k: nat) returns (i: nat)
    requires |at| > n && at[0] == 0 && k < at[n]
    requires forall i, j :: 0 <= i <= j <= n ==> at[i] <= at[j]
    ensures i < n && at[i] <= k < at[i + 1]
    decreases n
  {
    if at[n - 1] <= k {
      i := n - 1;
    } else {
      i := PieceHolding(whole, at, n - 1, k);
    }
  }
}
