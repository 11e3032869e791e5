/** What discovery promises over every history of boots, steps, crashes, torn writes and
    cache expiry. */
module DiscoveryProofs {
  import opened Traces
  import opened Wrappers
  import opened Discovery

  // ---------------------------------------------------------------- batching

  /** Slicing loses and duplicates nothing: the batches, end to end, are the host list. */
  lemma {:induction false} BatchesFlatten(hosts: seq<Host>, m: nat)
    requires m > 0
    ensures Flatten(Batches(hosts, m)) == hosts
    decreases |hosts|
  {
    if hosts != [] {
      var k := if |hosts| < m then |hosts| else m;
      BatchesFlatten(hosts[k..], m);
      var bs := Batches(hosts, m);
      assert bs[0] == hosts[..k] && bs[1..] == Batches(hosts[k..], m);
      assert hosts == hosts[..k] + hosts[k..];
    }
  }

  lemma {:induction false} BatchSizes(hosts: seq<Host>, m: nat)
    requires m > 0
    ensures forall b :: b in Batches(hosts, m) ==> 0 < |b| <= m
    ensures (|Batches(hosts, m)| - 1) * m < |hosts| || hosts == []
    ensures |hosts| <= |Batches(hosts, m)| * m
    decreases |hosts|
  {
    if hosts != [] {
      var k := if |hosts| < m then |hosts| else m;
      BatchSizes(hosts[k..], m);
      var rest := Batches(hosts[k..], m);
      assert |Batches(hosts, m)| == |rest| + 1;
      assert (|rest| + 1) * m == |rest| * m + m;
      assert |rest| * m == (|rest| - 1) * m + m;
    }
  }

  lemma MulLe(a: int, b: int, m: nat)
    requires a <= b
    ensures a * m <= b * m
  {
    assert (b - a) * m >= 0;
  }

  lemma QuotientUnique(x: nat, m: nat, b: nat)
    requires m > 0 && b * m <= x < b * m + m
    ensures x / m == b
  {
    var q := x / m;
    assert x == q * m + x % m;
    if q < b {
      MulLe(q + 1, b, m);
    } else if b < q {
      MulLe(b + 1, q, m);
    }
  }

  /** The total announced before the first batch is the number of batches then run; with no host
      at all one is announced and none is run. */
  lemma AnnouncedTotal(hosts: seq<Host>, m: nat)
    requires m > 0
    ensures hosts != [] ==> BatchTotal(|hosts|, m) == |Batches(hosts, m)|
    ensures hosts == [] ==> BatchTotal(|hosts|, m) == 1 && Batches(hosts, m) == []
  {
    if hosts != [] {
      BatchSizes(hosts, m);
      var b := |Batches(hosts, m)|;
      assert (b - 1) * m == b * m - m;
      QuotientUnique(|hosts| + m - 1, m, b);
    } else {
      QuotientUnique(m - 1, m, 0);
    }
  }

  lemma {:induction false} SplitMembers(batch: seq<Host>, down: set<Host>, h: Host)
    ensures h in Responsive(batch, down) <==> h in batch && h !in down
    ensures NoResponse(h) in Silent(batch, down) <==> h in batch && h in down
    decreases |batch|
  {
    if batch != [] {
      SplitMembers(batch[..|batch| - 1], down, h);
    }
  }

  /** The pre-pass splits a batch in two: a host is swept or gets an advisory, never both,
      and a host the pre-pass said nothing about is swept. */
  lemma PrepassPartition(p: Prober, batch: seq<Host>, h: Host)
    requires h in batch
    ensures (h in SweepTargets(p, batch)) != (NoResponse(h) in Advisories(p, batch))
    ensures p.liveness(batch).Raised? ==> h in SweepTargets(p, batch)
    ensures p.liveness(batch).Returned? && (forall s :: s in p.liveness(batch).value ==> s.host != h || s.up)
            ==> h in SweepTargets(p, batch)
  {
    if p.liveness(batch).Returned? {
      var down := DownHosts(p.liveness(batch).value);
      SplitMembers(batch, down, h);
      if h in down {
        var s :| s in p.liveness(batch).value && !s.up && s.host == h;
      }
    }
  }

  // ---------------------------------------------------------------- any prober

  /** A checkpoint is only ever written after the payload of its batch. */
  ghost predicate PayloadFirst(log: seq<Write>) {
    forall i :: 0 <= i < |log| && log[i].Marked? ==> Saved(log[i].number) in log[..i]
  }

  ghost predicate Logged(d: Disk) {
    PayloadFirst(d.log) && forall n :: n in d.cache ==> Saved(n) in d.log
  }

  /** Number of batches whose outcome the accumulators already hold. */
  ghost function Settled(r: Run): nat {
    if r.phase.Save? || r.phase.Mark? || r.phase.Count? then r.next + 1 else r.next
  }

  /** Where a host of batch `number` ended up in this run. */
  ghost predicate Accounted(t: Tally, number: nat, h: Host) {
    || h in t.swept
    || NoResponse(h) in t.liveness
    || (exists f :: f in t.failures && f.number == number)
    || number in t.restored
  }

  ghost predicate Located(bs: seq<seq<Host>>, r: Run) {
    && Settled(r) <= |bs|
    && (r.phase.Sweep? ==> r.next < |bs|)
    && (r.phase.Close? || r.phase.Finished? ==> r.next == |bs|)
  }

  ghost predicate Conserved(bs: seq<seq<Host>>, r: Run)
    requires Located(bs, r)
  {
    && (forall i, h :: 0 <= i < Settled(r) && h in bs[i] ==> Accounted(r.tally, i + 1, h))
    && (r.phase.Sweep? ==> forall h :: h in bs[r.next] ==> h in r.phase.targets || NoResponse(h) in r.tally.liveness)
    && r.tally.checked == |Flatten(bs[..r.next])|
  }

  /** Batches restored in this run were checkpointed before it booted. */
  ghost predicate Anchored(d: Disk, r: Run) {
    && r.base <= |d.log|
    && r.completed <= MarkedNumbers(d.log[..r.base])
    && r.tally.restored <= r.completed
    && (r.phase.Mark? ==> Saved(r.next + 1) in d.log)
  }

  /** The last batch this run may have checkpointed or given an error row. */
  ghost function Reached(r: Run): nat {
    if r.phase.Count? then r.next + 1 else r.next
  }

  /** No batch with an error row in this run was checkpointed by this run. */
  ghost predicate FailuresUnmarked(d: Disk, r: Run) {
    Unmarked(d.log, r.base, r.tally.failures, Reached(r))
  }

  ghost predicate Unmarked(log: seq<Write>, base: nat, failures: seq<FailedBatch>, reached: nat) {
    && (forall i :: base <= i < |log| && log[i].Marked? ==> log[i].number <= reached)
    && (forall f :: f in failures ==> f.number <= reached)
    && (forall i, f :: base <= i < |log| && log[i].Marked? && f in failures ==> log[i].number != f.number)
  }

  ghost predicate Sound(plan: Plan, s: System) {
    Logged(s.disk) && (s.process.Some? ==> RunSound(plan, s.disk, s.process.value))
  }

  ghost predicate RunSound(plan: Plan, d: Disk, r: Run) {
    && Located(plan.batches, r)
    && Conserved(plan.batches, r)
    && Anchored(d, r)
    && FailuresUnmarked(d, r)
    && Concluded(plan, d, r)
  }

  /** A finished run whose stage checkpoint arrived left it as its last write: "partial" exactly
      when it has error rows. */
  ghost predicate Concluded(plan: Plan, d: Disk, r: Run) {
    r.phase.Finished? && r.phase.recorded ==>
      d.log != [] && d.log[|d.log| - 1] == StageMarked(r.tally.failures != [])
  }

  lemma FlattenSnoc(bs: seq<seq<Host>>, k: nat)
    requires k < |bs|
    ensures Flatten(bs[..k + 1]) == Flatten(bs[..k]) + bs[k]
    decreases k
  {
    if k == 0 {
      assert bs[..1] == [bs[0]];
      assert bs[..1][1..] == [];
    } else {
      FlattenSnoc(bs[1..], k - 1);
      assert bs[..k + 1][1..] == bs[1..][..k];
      assert bs[..k][1..] == bs[1..][..k - 1];
    }
  }

  lemma StepLocated(plan: Plan, met: Conditions, d: Disk, r: Run)
    requires Located(plan.batches, r)
    ensures Located(plan.batches, Step(plan, met, d, r).1)
  {
  }

  lemma StepConserved(plan: Plan, met: Conditions, d: Disk, r: Run)
    requires Located(plan.batches, r) && Conserved(plan.batches, r)
    ensures Located(plan.batches, Step(plan, met, d, r).1)
    ensures Conserved(plan.batches, Step(plan, met, d, r).1)
  {
    StepLocated(plan, met, d, r);
    var bs := plan.batches;
    var r' := Step(plan, met, d, r).1;
    if r.next < |bs| {
      FlattenSnoc(bs, r.next);
    }
    forall i, h | 0 <= i < Settled(r') && h in bs[i]
      ensures Accounted(r'.tally, i + 1, h)
    {
      if i < Settled(r) {
        assert Accounted(r.tally, i + 1, h);
        if f :| f in r.tally.failures && f.number == i + 1 {
          assert f in r'.tally.failures;
        }
      } else if r.phase.Sweep? && SweepOutcome(met.prober, r.phase.targets).Raised? {
        var f := r'.tally.failures[|r'.tally.failures| - 1];
        assert f in r'.tally.failures && f.number == i + 1;
      }
    }
    if r'.phase.Sweep? {
      forall h | h in bs[r.next]
        ensures h in r'.phase.targets || NoResponse(h) in r'.tally.liveness
      {
        PrepassPartition(met.prober, bs[r.next], h);
      }
    }
  }

  lemma StepAnchored(plan: Plan, met: Conditions, d: Disk, r: Run)
    requires Anchored(d, r)
    ensures var (d', r') := Step(plan, met, d, r); Anchored(d', r')
  {
    var (d', r') := Step(plan, met, d, r);
    assert d'.log[..r.base] == d.log[..r.base];
  }

  lemma UnmarkedFailure(log: seq<Write>, base: nat, failures: seq<FailedBatch>, n: nat, f: FailedBatch)
    requires Unmarked(log, base, failures, n) && f.number == n + 1
    ensures Unmarked(log, base, failures + [f], n + 1)
  {
  }

  lemma UnmarkedMark(log: seq<Write>, base: nat, failures: seq<FailedBatch>, n: nat)
    requires Unmarked(log, base, failures, n)
    ensures Unmarked(log + [Marked(n + 1)], base, failures, n + 1)
  {
  }

  lemma UnmarkedWrite(log: seq<Write>, base: nat, failures: seq<FailedBatch>, n: nat, w: Write)
    requires Unmarked(log, base, failures, n) && !w.Marked?
    ensures Unmarked(log + [w], base, failures, n)
  {
  }

  lemma UnmarkedLater(log: seq<Write>, base: nat, failures: seq<FailedBatch>, n: nat, m: nat)
    requires Unmarked(log, base, failures, n) && n <= m
    ensures Unmarked(log, base, failures, m)
  {
  }

  lemma SweepUnmarked(plan: Plan, met: Conditions, d: Disk, r: Run)
    requires FailuresUnmarked(d, r) && r.phase.Sweep?
    ensures var (d', r') := Step(plan, met, d, r); FailuresUnmarked(d', r')
  {
    var outcome := SweepOutcome(met.prober, r.phase.targets);
    if outcome.Raised? {
      UnmarkedFailure(d.log, r.base, r.tally.failures, r.next, FailedBatch(r.next + 1, FailureText(outcome)));
    }
  }

  lemma MarkUnmarked(plan: Plan, met: Conditions, d: Disk, r: Run)
    requires FailuresUnmarked(d, r) && r.phase.Mark?
    ensures var (d', r') := Step(plan, met, d, r); FailuresUnmarked(d', r')
  {
    UnmarkedMark(d.log, r.base, r.tally.failures, r.next);
    UnmarkedLater(d.log, r.base, r.tally.failures, r.next, r.next + 1);
  }

  lemma WriteUnmarked(plan: Plan, met: Conditions, d: Disk, r: Run)
    requires FailuresUnmarked(d, r) && (r.phase.Save? || r.phase.Close?)
    ensures var (d', r') := Step(plan, met, d, r); FailuresUnmarked(d', r')
  {
    UnmarkedWrite(d.log, r.base, r.tally.failures, r.next,
                  if r.phase.Save? then Saved(r.next + 1) else StageMarked(r.tally.failures != []));
  }

  lemma RestUnmarked(plan: Plan, met: Conditions, d: Disk, r: Run)
    requires FailuresUnmarked(d, r) && (r.phase.Fetch? || r.phase.Count? || r.phase.Finished?)
    ensures var (d', r') := Step(plan, met, d, r); FailuresUnmarked(d', r')
  {
    var (d', r') := Step(plan, met, d, r);
    assert d' == d && r'.base == r.base && r'.tally.failures == r.tally.failures && Reached(r) <= Reached(r');
    UnmarkedLater(d.log, r.base, r.tally.failures, Reached(r), Reached(r'));
  }

  lemma StepFailuresUnmarked(plan: Plan, met: Conditions, d: Disk, r: Run)
    requires FailuresUnmarked(d, r)
    ensures var (d', r') := Step(plan, met, d, r); FailuresUnmarked(d', r')
  {
    match r.phase
    case Sweep(_, _) => SweepUnmarked(plan, met, d, r);
    case Save(_) => WriteUnmarked(plan, met, d, r);
    case Mark => MarkUnmarked(plan, met, d, r);
    case Close => WriteUnmarked(plan, met, d, r);
    case _ => RestUnmarked(plan, met, d, r);
  }

  lemma PayloadFirstSnoc(log: seq<Write>, w: Write)
    requires PayloadFirst(log)
    requires w.Marked? ==> Saved(w.number) in log
    ensures PayloadFirst(log + [w])
  {
    forall i | 0 <= i < |log + [w]| && (log + [w])[i].Marked?
      ensures Saved((log + [w])[i].number) in (log + [w])[..i]
    {
      assert (log + [w])[..i] == log[..i];
    }
  }

  lemma LoggedSnoc(d: Disk, w: Write)
    requires Logged(d) && (w.Marked? ==> Saved(w.number) in d.log)
    ensures Logged(Disk(d.cache, d.log + [w]))
  {
    PayloadFirstSnoc(d.log, w);
  }

  lemma SavedLogged(d: Disk, n: nat, payload: Payload)
    requires Logged(d)
    ensures Logged(Disk(d.cache[n := payload], d.log + [Saved(n)]))
  {
    PayloadFirstSnoc(d.log, Saved(n));
    assert Saved(n) in d.log + [Saved(n)];
  }

  lemma RecordedLogged(d: Disk, row: Write, met: Conditions)
    requires Logged(d) && (row.Marked? ==> Saved(row.number) in d.log)
    ensures Logged(Recorded(d, row, met))
  {
    LoggedSnoc(d, row);
  }

  lemma QuietStep(plan: Plan, met: Conditions, d: Disk, r: Run)
    requires r.phase.Fetch? || r.phase.Sweep? || r.phase.Count? || r.phase.Finished?
    ensures Step(plan, met, d, r).0 == d
  {
  }

  lemma StepLog(plan: Plan, met: Conditions, d: Disk, r: Run)
    requires Logged(d)
    requires r.phase.Mark? ==> Saved(r.next + 1) in d.log
    ensures Logged(Step(plan, met, d, r).0)
  {
    match r.phase
    case Save(payload) => SavedLogged(d, r.next + 1, payload);
    case Mark => RecordedLogged(d, Marked(r.next + 1), met);
    case Close => RecordedLogged(d, StageMarked(r.tally.failures != []), met);
    case _ => QuietStep(plan, met, d, r);
  }

  lemma StepSound(plan: Plan, met: Conditions, d: Disk, r: Run)
    requires Logged(d) && RunSound(plan, d, r)
    ensures var (d', r') := Step(plan, met, d, r); Logged(d') && RunSound(plan, d', r')
  {
    StepConserved(plan, met, d, r);
    StepAnchored(plan, met, d, r);
    StepFailuresUnmarked(plan, met, d, r);
    StepLog(plan, met, d, r);
  }

  lemma BootSound(plan: Plan, d: Disk, loaded: bool)
    ensures RunSound(plan, d, BootRun(plan, d.log, loaded))
  {
    assert d.log[..|d.log|] == d.log;
  }

  lemma ApplySound(plan: Plan, s: System, e: Event)
    requires Sound(plan, s)
    ensures Sound(plan, Apply(plan, s, e))
  {
    match e
    case Boot(loaded) => BootSound(plan, s.disk, loaded);
    case Tick(met) =>
      if s.process.Some? {
        StepSound(plan, met, s.disk, s.process.value);
      }
    case Kill =>
    case TornSave =>
    case Expire(_) =>
  }

  lemma HistorySound(plan: Plan, trace: seq<Event>)
    ensures Sound(plan, Execute(plan, trace))
  {
    forall s, e | Sound(plan, s) ensures Sound(plan, Transition(plan)(s, e)) {
      ApplySound(plan, s, e);
    }
    FoldInvariant(Transition(plan), s => Sound(plan, s), _ => true, FRESH, trace);
  }

  /** Over every history, with a prober that may answer differently each time: a batch
      checkpoint never precedes its payload, and a batch whose sweep failed in the
      current run was not checkpointed by it. */
  lemma CheckpointSafety(plan: Plan, trace: seq<Event>)
    ensures PayloadFirst(Execute(plan, trace).disk.log)
    ensures var s := Execute(plan, trace);
            s.process.Some? ==>
              var log, r := s.disk.log, s.process.value;
              forall i, f :: r.base <= i < |log| && log[i].Marked? && f in r.tally.failures ==>
                log[i].number != f.number
  {
    HistorySound(plan, trace);
  }

  /** When the loop ends every host is in exactly one batch and was swept, has a liveness
      advisory, lies in a batch with an error row, or came back from that batch's cache
      under an earlier checkpoint; `hosts_checked` is the host total. */
  lemma DiscoveryConservation(plan: Plan, hosts: seq<Host>, m: nat, trace: seq<Event>)
    requires Slices(plan, hosts, m)
    requires Ended(Execute(plan, trace))
    ensures var s := Execute(plan, trace);
            var bs, t := plan.batches, s.process.value.tally;
            && Flatten(bs) == hosts
            && (forall i, h :: 0 <= i < |bs| && h in bs[i] ==> Accounted(t, i + 1, h))
            && s.process.value.base <= |s.disk.log|
            && (forall n :: n in t.restored ==> n in MarkedNumbers(s.disk.log[..s.process.value.base]))
            && t.checked == |hosts|
            && Concluded(plan, s.disk, s.process.value)
  {
    HistorySound(plan, trace);
    BatchesFlatten(hosts, m);
    assert plan.batches[..|plan.batches|] == plan.batches;
  }

  lemma {:induction false} FlattenFind(bs: seq<seq<Host>>, h: Host)
    ensures h in Flatten(bs) <==> exists i :: 0 <= i < |bs| && h in bs[i]
    decreases |bs|
  {
    if bs != [] {
      FlattenFind(bs[1..], h);
      if i :| 0 <= i < |bs| && h in bs[i] && i > 0 {
        assert h in bs[1..][i - 1];
      }
      if h in Flatten(bs[1..]) {
        var i :| 0 <= i < |bs[1..]| && h in bs[1..][i];
        assert h in bs[i + 1];
      }
    }
  }

  lemma {:induction false} FlattenDistinct(bs: seq<seq<Host>>, i: nat, j: nat, h: Host)
    requires forall a, b :: 0 <= a < b < |Flatten(bs)| ==> Flatten(bs)[a] != Flatten(bs)[b]
    requires i < j < |bs| && h in bs[i]
    ensures h !in bs[j]
    decreases i
  {
    var rest := Flatten(bs[1..]);
    assert Flatten(bs) == bs[0] + rest;
    if i == 0 {
      if h in bs[j] {
        assert h in bs[1..][j - 1];
        FlattenFind(bs[1..], h);
        var a :| 0 <= a < |bs[0]| && bs[0][a] == h;
        forall b | 0 <= b < |rest| ensures rest[b] != h {
          assert rest[b] == Flatten(bs)[|bs[0]| + b] && h == Flatten(bs)[a];
        }
      }
    } else {
      forall a, b | 0 <= a < b < |rest| ensures rest[a] != rest[b] {
        assert rest[a] == Flatten(bs)[|bs[0]| + a] && rest[b] == Flatten(bs)[|bs[0]| + b];
      }
      FlattenDistinct(bs[1..], i - 1, j - 1, h);
    }
  }

  lemma EveryHostInOneBatch(plan: Plan, hosts: seq<Host>, m: nat, h: Host)
    requires Slices(plan, hosts, m) && h in hosts
    ensures var bs := plan.batches;
            exists i :: 0 <= i < |bs| && h in bs[i] && forall j :: 0 <= j < |bs| && j != i ==> h !in bs[j]
  {
    var bs := plan.batches;
    BatchesFlatten(hosts, m);
    FlattenFind(bs, h);
    var i :| 0 <= i < |bs| && h in bs[i];
    forall j | 0 <= j < |bs| && j != i ensures h !in bs[j] {
      if i < j {
        FlattenDistinct(bs, i, j, h);
      } else if h in bs[j] {
        FlattenDistinct(bs, j, i, h);
      }
    }
  }

  // ---------------------------------------------------------------- a deterministic prober

  /** What one batch is worth, with no cache, checkpoint or crash in sight. */
  datatype Yield = Yield(outcome: Attempt<seq<OpenPort>>, advisories: seq<Advisory>) {
    predicate Fails() {
      outcome.Raised?
    }

    function Ports(): seq<OpenPort> {
      if outcome.Raised? then [] else outcome.value
    }

    function Failures(number: nat): seq<FailedBatch> {
      if outcome.Raised? then [FailedBatch(number, FailureText(outcome))] else []
    }
  }

  function YieldOf(p: Prober, b: seq<Host>): Yield {
    Yield(SweepOutcome(p, SweepTargets(p, b)), Advisories(p, b))
  }

  function Yields(p: Prober, bs: seq<seq<Host>>): seq<Yield> {
    seq(|bs|, i requires 0 <= i < |bs| => YieldOf(p, bs[i]))
  }

  /** The reference: the batches' worth, end to end. */
  function ExpectedPorts(ys: seq<Yield>, n: nat): seq<OpenPort>
    requires n <= |ys|
    decreases n
  {
    if n == 0 then [] else ExpectedPorts(ys, n - 1) + ys[n - 1].Ports()
  }

  function ExpectedLiveness(first: seq<Advisory>, ys: seq<Yield>, n: nat): seq<Advisory>
    requires n <= |ys|
    decreases n
  {
    if n == 0 then first else ExpectedLiveness(first, ys, n - 1) + ys[n - 1].advisories
  }

  function ExpectedFailures(ys: seq<Yield>, n: nat): seq<FailedBatch>
    requires n <= |ys|
    decreases n
  {
    if n == 0 then [] else ExpectedFailures(ys, n - 1) + ys[n - 1].Failures(n)
  }

  ghost predicate TrueCache(ys: seq<Yield>, d: Disk) {
    && (forall n :: n in d.cache ==>
          && 1 <= n <= |ys|
          && !ys[n - 1].Fails()
          && d.cache[n] == Payload(ys[n - 1].Ports(), ys[n - 1].advisories))
    && (forall i :: 0 <= i < |d.log| && d.log[i].Marked? ==>
          1 <= d.log[i].number <= |ys| && !ys[d.log[i].number - 1].Fails())
  }

  ghost predicate TruePhase(plan: Plan, p: Prober, ys: seq<Yield>, r: Run)
    requires Located(plan.batches, r) && |ys| == |plan.batches|
  {
    && (r.phase.Sweep? ==>
          && r.phase.targets == SweepTargets(p, plan.batches[r.next])
          && r.phase.advisories == ys[r.next].advisories)
    && (r.phase.Save? || r.phase.Mark? ==> !ys[r.next].Fails())
    && (r.phase.Save? ==> r.phase.payload == Payload(ys[r.next].Ports(), ys[r.next].advisories))
  }

  ghost predicate TrueTally(plan: Plan, ys: seq<Yield>, r: Run)
    requires Located(plan.batches, r) && |ys| == |plan.batches|
  {
    var advised := if r.phase.Sweep? then r.next + 1 else Settled(r);
    && r.tally.ports == ExpectedPorts(ys, Settled(r))
    && r.tally.liveness == ExpectedLiveness(InitialTally(plan).liveness, ys, advised)
    && r.tally.failures == ExpectedFailures(ys, Settled(r))
  }

  ghost predicate RunFaithful(plan: Plan, p: Prober, ys: seq<Yield>, d: Disk, r: Run)
    requires |ys| == |plan.batches|
  {
    TrueCache(ys, d) && Located(plan.batches, r) && TruePhase(plan, p, ys, r) && TrueTally(plan, ys, r)
  }

  ghost predicate Faithful(plan: Plan, p: Prober, s: System) {
    var ys := Yields(p, plan.batches);
    TrueCache(ys, s.disk) && (s.process.Some? ==> RunFaithful(plan, p, ys, s.disk, s.process.value))
  }

  lemma FetchFaithful(plan: Plan, met: Conditions, ys: seq<Yield>, d: Disk, r: Run)
    requires |ys| == |plan.batches| && RunFaithful(plan, met.prober, ys, d, r) && r.phase.Fetch?
    requires r.next < |ys| ==> ys[r.next].advisories == Advisories(met.prober, plan.batches[r.next])
    ensures var (d', r') := Step(plan, met, d, r); RunFaithful(plan, met.prober, ys, d', r')
  {
    if r.next < |ys| && r.next + 1 in r.completed && r.next + 1 in d.cache {
      assert ys[r.next].Failures(r.next + 1) == [];
    }
  }

  lemma SweepFaithful(plan: Plan, met: Conditions, ys: seq<Yield>, d: Disk, r: Run)
    requires |ys| == |plan.batches| && RunFaithful(plan, met.prober, ys, d, r) && r.phase.Sweep?
    requires ys[r.next].outcome == SweepOutcome(met.prober, r.phase.targets)
    ensures var (d', r') := Step(plan, met, d, r); RunFaithful(plan, met.prober, ys, d', r')
  {
    var y := ys[r.next];
    if y.Fails() {
      assert y.Ports() == [];
    } else {
      assert y.Failures(r.next + 1) == [];
    }
  }

  lemma TrueCacheSaved(ys: seq<Yield>, d: Disk, n: nat)
    requires TrueCache(ys, d) && 1 <= n <= |ys| && !ys[n - 1].Fails()
    ensures TrueCache(ys, Disk(d.cache[n := Payload(ys[n - 1].Ports(), ys[n - 1].advisories)], d.log + [Saved(n)]))
  {
  }

  lemma TrueCacheLogged(ys: seq<Yield>, d: Disk, w: Write)
    requires TrueCache(ys, d) && (w.Marked? ==> 1 <= w.number <= |ys| && !ys[w.number - 1].Fails())
    ensures TrueCache(ys, d.(log := d.log + [w]))
  {
  }

  lemma RecordCache(plan: Plan, met: Conditions, ys: seq<Yield>, d: Disk, r: Run)
    requires |ys| == |plan.batches| && RunFaithful(plan, met.prober, ys, d, r)
    requires !r.phase.Fetch? && !r.phase.Sweep?
    ensures TrueCache(ys, Step(plan, met, d, r).0)
  {
    match r.phase
    case Save(_) => TrueCacheSaved(ys, d, r.next + 1);
    case Mark => TrueCacheLogged(ys, d, Marked(r.next + 1));
    case Close => TrueCacheLogged(ys, d, StageMarked(r.tally.failures != []));
    case _ =>
  }

  lemma RecordFaithful(plan: Plan, met: Conditions, ys: seq<Yield>, d: Disk, r: Run)
    requires |ys| == |plan.batches| && RunFaithful(plan, met.prober, ys, d, r)
    requires !r.phase.Fetch? && !r.phase.Sweep?
    ensures var (d', r') := Step(plan, met, d, r); RunFaithful(plan, met.prober, ys, d', r')
  {
    StepLocated(plan, met, d, r);
    RecordCache(plan, met, ys, d, r);
  }

  lemma StepFaithful(plan: Plan, met: Conditions, ys: seq<Yield>, d: Disk, r: Run)
    requires |ys| == |plan.batches| && RunFaithful(plan, met.prober, ys, d, r)
    requires r.next < |ys| ==> ys[r.next] == YieldOf(met.prober, plan.batches[r.next])
    ensures var (d', r') := Step(plan, met, d, r); RunFaithful(plan, met.prober, ys, d', r')
  {
    match r.phase
    case Fetch => FetchFaithful(plan, met, ys, d, r);
    case Sweep(_, _) => SweepFaithful(plan, met, ys, d, r);
    case _ => RecordFaithful(plan, met, ys, d, r);
  }

  lemma BootFaithful(plan: Plan, p: Prober, d: Disk, loaded: bool)
    requires TrueCache(Yields(p, plan.batches), d)
    ensures RunFaithful(plan, p, Yields(p, plan.batches), d, BootRun(plan, d.log, loaded))
  {
  }

  lemma ApplyFaithful(plan: Plan, p: Prober, s: System, e: Event)
    requires Faithful(plan, p, s)
    requires e.Tick? ==> e.met.prober == p
    ensures Faithful(plan, p, Apply(plan, s, e))
  {
    match e
    case Boot(loaded) => BootFaithful(plan, p, s.disk, loaded);
    case Tick(met) =>
      if s.process.Some? {
        StepFaithful(plan, met, Yields(p, plan.batches), s.disk, s.process.value);
      }
    case Kill =>
    case TornSave =>
    case Expire(_) =>
  }

  ghost predicate Uniform(p: Prober, trace: seq<Event>) {
    forall e :: e in trace && e.Tick? ==> e.met.prober == p
  }

  lemma HistoryFaithful(plan: Plan, p: Prober, trace: seq<Event>)
    requires Uniform(p, trace)
    ensures Faithful(plan, p, Execute(plan, trace))
  {
    forall s, e: Event | Faithful(plan, p, s) && (e.Tick? ==> e.met.prober == p)
      ensures Faithful(plan, p, Transition(plan)(s, e))
    {
      ApplyFaithful(plan, p, s, e);
    }
    FoldInvariant(Transition(plan), s => Faithful(plan, p, s), (e: Event) => e.Tick? ==> e.met.prober == p, FRESH, trace);
  }

  lemma {:induction false} NoFailures(ys: seq<Yield>, n: nat)
    requires n <= |ys| && forall i :: 0 <= i < n ==> !ys[i].Fails()
    ensures ExpectedFailures(ys, n) == []
    decreases n
  {
    if n > 0 {
      NoFailures(ys, n - 1);
    }
  }

  lemma {:induction false} SomeFailure(ys: seq<Yield>, n: nat, i: nat)
    requires i < n <= |ys| && ys[i].Fails()
    ensures ExpectedFailures(ys, n) != []
    decreases n
  {
    if i < n - 1 {
      SomeFailure(ys, n - 1, i);
    }
  }

  /** A run ends with error rows exactly when some batch's sweep fails, and its stage checkpoint,
      if it arrived, is its last write and says "partial" exactly then. */
  lemma PartialExactly(plan: Plan, p: Prober, trace: seq<Event>)
    requires Uniform(p, trace) && Ended(Execute(plan, trace))
    ensures var log, r, ys := Execute(plan, trace).disk.log, Execute(plan, trace).process.value, Yields(p, plan.batches);
            && (r.tally.failures != [] <==> exists i :: 0 <= i < |ys| && ys[i].Fails())
            && (r.phase.recorded ==> log != [] && log[|log| - 1] == StageMarked(r.tally.failures != []))
  {
    HistorySound(plan, trace);
    HistoryFaithful(plan, p, trace);
    var ys := Yields(p, plan.batches);
    if i :| 0 <= i < |ys| && ys[i].Fails() {
      SomeFailure(ys, |ys|, i);
    } else {
      NoFailures(ys, |ys|);
    }
  }

  ghost predicate SameOutcome(a: Tally, b: Tally) {
    a.ports == b.ports && a.liveness == b.liveness && a.failures == b.failures && a.checked == b.checked
  }

  /** Resume equivalence: with a prober that answers the same each time, any two histories
      that end a run, whatever crashed and expired on the way, end with the same open
      ports, liveness advisories and failed-batch rows, in the same order. */
  lemma ResumeEquivalence(plan: Plan, p: Prober, interrupted: seq<Event>, straight: seq<Event>)
    requires Uniform(p, interrupted) && Uniform(p, straight)
    requires Ended(Execute(plan, interrupted)) && Ended(Execute(plan, straight))
    ensures SameOutcome(Execute(plan, interrupted).process.value.tally,
                        Execute(plan, straight).process.value.tally)
  {
    HistoryFaithful(plan, p, interrupted);
    HistoryFaithful(plan, p, straight);
    HistorySound(plan, interrupted);
    HistorySound(plan, straight);
  }

  // ---------------------------------------------------------------- progress

  /** Steps left before the process ends. */
  ghost function Remaining(plan: Plan, s: System): nat {
    if s.process.None? || s.process.value.next > |plan.batches| then 0
    else
      var left := 5 * (|plan.batches| - s.process.value.next);
      match s.process.value.phase
      case Fetch => left + 2
      case Sweep(_, _) => left + 1
      case Save(_) => left
      case Mark => if left > 0 then left - 1 else 0
      case Count => if left > 1 then left - 2 else 0
      case Close => 1
      case Finished(_) => 0
  }

  ghost predicate Running(plan: Plan, s: System) {
    s.process.Some? && Located(plan.batches, s.process.value)
  }

  lemma TickProgress(plan: Plan, met: Conditions, s: System)
    requires Running(plan, s)
    ensures Running(plan, Ticker(plan, met)(s))
    ensures Ended(s) ==> Ended(Ticker(plan, met)(s))
    ensures !Ended(s) ==> Remaining(plan, Ticker(plan, met)(s)) < Remaining(plan, s)
  {
    StepLocated(plan, met, s.disk, s.process.value);
  }

  lemma RunsToEnd(plan: Plan, met: Conditions, s: System, n: nat)
    requires Running(plan, s) && Remaining(plan, s) <= n
    ensures Ended(Iterate(Ticker(plan, met), s, n))
  {
    var holds, done, rank := x => Running(plan, x), x => Ended(x), x => Remaining(plan, x);
    forall x ensures Advances(Ticker(plan, met), holds, done, rank, x) {
      if Running(plan, x) {
        TickProgress(plan, met, x);
      }
    }
    IterateReaches(Ticker(plan, met), holds, done, rank, s, n);
  }

  lemma BootedEnds(plan: Plan, met: Conditions, trace: seq<Event>, loaded: bool, n: nat)
    requires n == 5 * |plan.batches| + 2
    ensures Ended(Execute(plan, trace + [Boot(loaded)] + Ticks(met, n)))
  {
    var booted := trace + [Boot(loaded)];
    assert booted[..|booted| - 1] == trace;
    RunsToEnd(plan, met, Execute(plan, booted), n);
    IterateIsFold(Transition(plan), Ticker(plan, met), Tick(met), Execute(plan, booted), n);
    FoldAppend(Transition(plan), FRESH, booted, Ticks(met, n));
  }

  /** Resuming always gets there: after any history at all, one resume left alone for a
      bounded number of steps ends, with exactly the result of an uninterrupted run, whichever
      checkpoint writes arrive. */
  lemma ResumeCompletes(plan: Plan, met: Conditions, trace: seq<Event>, loaded: bool)
    requires Uniform(met.prober, trace)
    ensures var n := 5 * |plan.batches| + 2;
            var resumed := Execute(plan, trace + [Boot(loaded)] + Ticks(met, n));
            var straight := Execute(plan, [Boot(true)] + Ticks(met, n));
            && Ended(resumed) && Ended(straight)
            && SameOutcome(resumed.process.value.tally, straight.process.value.tally)
  {
    var n := 5 * |plan.batches| + 2;
    BootedEnds(plan, met, trace, loaded, n);
    BootedEnds(plan, met, [], true, n);
    assert [] + [Boot(true)] + Ticks(met, n) == [Boot(true)] + Ticks(met, n);
    ResumeEquivalence(plan, met.prober, trace + [Boot(loaded)] + Ticks(met, n), [Boot(true)] + Ticks(met, n));
  }
}
