/** The resumable discovery stage: hosts are swept batch by batch behind a liveness
    pre-pass, and a batch that was swept leaves a cache payload and then a checkpoint.
    The process may die between any two steps; what survives is the disk. */
module Discovery {
  import opened Traces
  import opened Wrappers

  datatype Host = Host(name: string)

  datatype OpenPort = OpenPort(host: Host, port: int, protocol: string, service: string)
  datatype HostStatus = HostStatus(host: Host, up: bool)
  datatype Attempt<+T> = Returned(value: T) | Raised(message: string, className: string)
  datatype Advisory = PrivilegeFallback | NoResponse(host: Host)
  datatype FailedBatch = FailedBatch(number: nat, message: string)
  datatype Payload = Payload(ports: seq<OpenPort>, liveness: seq<Advisory>)

  /** The two nmap calls. */
  datatype Prober = Prober(
    liveness: seq<Host> -> Attempt<seq<HostStatus>>,
    sweep: seq<Host> -> Attempt<seq<OpenPort>>)

  /** What a run is asked to do: the batches in order, whether raw sockets were confirmed,
      and whether a database path was given. */
  datatype Plan = Plan(batches: seq<seq<Host>>, rawSocket: Option<bool>, persist: bool)

  /** The batches come from slicing a duplicate-free host expansion. */
  ghost predicate Slices(plan: Plan, hosts: seq<Host>, m: nat) {
    && m > 0
    && plan.batches == Batches(hosts, m)
    && forall i, j :: 0 <= i < j < |hosts| ==> hosts[i] != hosts[j]
  }

  // ---------------------------------------------------------------- batches

  function Batches(hosts: seq<Host>, m: nat): (bs: seq<seq<Host>>)
    requires m > 0
    decreases |hosts|
  {
    if hosts == [] then []
    else
      var k := if |hosts| < m then |hosts| else m;
      [hosts[..k]] + Batches(hosts[k..], m)
  }

  function Flatten(bs: seq<seq<Host>>): seq<Host>
    decreases |bs|
  {
    if bs == [] then [] else bs[0] + Flatten(bs[1..])
  }

  /** `math.ceil(total / M) or 1`, the batch total announced before the first batch. */
  function BatchTotal(total: nat, m: nat): nat
    requires m > 0
  {
    var up := (total + m - 1) / m;
    if up == 0 then 1 else up
  }

  // ---------------------------------------------------------------- one batch

  function Responsive(batch: seq<Host>, down: set<Host>): seq<Host>
    decreases |batch|
  {
    if |batch| == 0 then []
    else
      var front, h := batch[..|batch| - 1], batch[|batch| - 1];
      Responsive(front, down) + if h in down then [] else [h]
  }

  function Silent(batch: seq<Host>, down: set<Host>): seq<Advisory>
    decreases |batch|
  {
    if |batch| == 0 then []
    else
      var front, h := batch[..|batch| - 1], batch[|batch| - 1];
      Silent(front, down) + if h in down then [NoResponse(h)] else []
  }

  function DownHosts(statuses: seq<HostStatus>): set<Host> {
    set s | s in statuses && !s.up :: s.host
  }

  function SweepTargets(p: Prober, batch: seq<Host>): seq<Host> {
    match p.liveness(batch)
    case Raised(_, _) => batch
    case Returned(statuses) => Responsive(batch, DownHosts(statuses))
  }

  function Advisories(p: Prober, batch: seq<Host>): seq<Advisory> {
    match p.liveness(batch)
    case Raised(_, _) => []
    case Returned(statuses) => Silent(batch, DownHosts(statuses))
  }

  /** A batch with no responsive host spawns no sweep at all. */
  function SweepOutcome(p: Prober, targets: seq<Host>): Attempt<seq<OpenPort>> {
    if |targets| == 0 then Returned([]) else p.sweep(targets)
  }

  function FailureText(a: Attempt<seq<OpenPort>>): string
    requires a.Raised?
  {
    if a.message != "" then a.message else a.className
  }

  // ---------------------------------------------------------------- state

  datatype Write = Saved(number: nat) | Marked(number: nat) | StageMarked(partial: bool)

  /** What a step meets: the two nmap calls, and whether the checkpoint row it may write, a write
      that is silent on failure, reaches the table. */
  datatype Conditions = Conditions(prober: Prober, arrives: Write -> bool)

  /** `cache` holds the entries `load_cache` would return; `log` is every durable write, in order. */
  datatype Disk = Disk(cache: map<nat, Payload>, log: seq<Write>)

  datatype Tally = Tally(
    ports: seq<OpenPort>, liveness: seq<Advisory>, failures: seq<FailedBatch>,
    swept: seq<Host>, restored: set<nat>, checked: nat)

  datatype Phase =
    | Fetch
    | Sweep(targets: seq<Host>, advisories: seq<Advisory>)
    | Save(payload: Payload)
    | Mark
    | Count
    | Close
    | Finished(recorded: bool)

  /** One process: the checkpoints it loaded at boot, the length the log had then,
      the batch it is at, and its accumulators. */
  datatype Run = Run(completed: set<nat>, base: nat, next: nat, phase: Phase, tally: Tally)

  datatype System = System(disk: Disk, process: Option<Run>)

  datatype Event =
    | Boot(loaded: bool)
    | Tick(met: Conditions)
    | Kill
    | TornSave
    | Expire(numbers: set<nat>)

  function MarkedNumbers(log: seq<Write>): set<nat> {
    set w | w in log && w.Marked? :: w.number
  }

  function InitialTally(plan: Plan): Tally {
    Tally([], if plan.rawSocket == Some(true) then [] else [PrivilegeFallback], [], [], {}, 0)
  }

  function BootRun(plan: Plan, log: seq<Write>, loaded: bool): Run {
    Run(if loaded then MarkedNumbers(log) else {}, |log|, 0, Fetch, InitialTally(plan))
  }

  function Recorded(d: Disk, row: Write, met: Conditions): Disk {
    if met.arrives(row) then d.(log := d.log + [row]) else d
  }

  function Step(plan: Plan, met: Conditions, d: Disk, r: Run): (Disk, Run)
  {
    var p := met.prober;
    var bs := plan.batches;
    var number := r.next + 1;
    var t := r.tally;
    match r.phase
    case Fetch =>
      if r.next >= |bs| then (d, r.(phase := Close))
      else if number in r.completed && number in d.cache then
        (d, r.(next := number,
               tally := t.(ports := t.ports + d.cache[number].ports,
                           liveness := t.liveness + d.cache[number].liveness,
                           restored := t.restored + {number},
                           checked := t.checked + |bs[r.next]|)))
      else
        var advs := Advisories(p, bs[r.next]);
        (d, r.(phase := Sweep(SweepTargets(p, bs[r.next]), advs), tally := t.(liveness := t.liveness + advs)))
    case Sweep(targets, advs) =>
      (match SweepOutcome(p, targets)
       case Returned(found) =>
         (d, r.(phase := if plan.persist then Save(Payload(found, advs)) else Count,
                tally := t.(ports := t.ports + found, swept := t.swept + targets)))
       case Raised(m, c) =>
         var row := FailedBatch(number, FailureText(Raised(m, c)));
         (d, r.(phase := Count, tally := t.(failures := t.failures + [row]))))
    case Save(payload) =>
      (Disk(d.cache[number := payload], d.log + [Saved(number)]), r.(phase := Mark))
    case Mark =>
      (Recorded(d, Marked(number), met), r.(phase := Count))
    case Count =>
      if r.next >= |bs| then (d, r)
      else (d, r.(next := number, phase := Fetch, tally := t.(checked := t.checked + |bs[r.next]|)))
    case Close =>
      var row := StageMarked(t.failures != []);
      (if plan.persist then Recorded(d, row, met) else d, r.(phase := Finished(plan.persist && met.arrives(row))))
    case Finished(_) => (d, r)
  }

  function Apply(plan: Plan, s: System, e: Event): System
  {
    match e
    case Boot(loaded) => s.(process := Some(BootRun(plan, s.disk.log, loaded)))
    case Tick(met) =>
      if s.process.None? then s
      else var (d, r) := Step(plan, met, s.disk, s.process.value); System(d, Some(r))
    case Kill => s.(process := None)
    case TornSave =>
      // Killed while a payload was being written: the old file is already truncated.
      if s.process.Some? && s.process.value.phase.Save?
      then System(s.disk.(cache := s.disk.cache - {s.process.value.next + 1}), None)
      else s.(process := None)
    case Expire(numbers) => s.(disk := s.disk.(cache := s.disk.cache - numbers))
  }

  function Transition(plan: Plan): (System, Event) -> System {
    (s, e) => Apply(plan, s, e)
  }

  function Execute(plan: Plan, trace: seq<Event>): System {
    Fold(Transition(plan), FRESH, trace)
  }

  /** One step of the running process. */
  function Ticker(plan: Plan, met: Conditions): System -> System {
    s => Apply(plan, s, Tick(met))
  }

  const FRESH := System(Disk(map[], []), None)

  function Ticks(met: Conditions, n: nat): seq<Event> {
    seq(n, _ => Tick(met))
  }

  ghost predicate Ended(s: System) {
    s.process.Some? && s.process.value.phase.Finished?
  }
}
