/** The fail-closed verdict on a branch's continuous integration. */
module CiVerdict {
  import opened Sequences
  import opened Wrappers

  datatype Job = Job(name: string, conclusion: Option<string>)

  /** `created` orders the runs of a workflow in time; jobs are known only for a completed run. */
  datatype Run = Run(sha: string, completed: bool, event: string, created: nat, jobs: seq<Job>)

  datatype Entry = Entry(name: string, run: Option<Run>)

  datatype State = Red | Green | Unobserved

  /** Why a workflow is not green. */
  datatype Reason =
    | NoRunAtHead(workflow: string)
    | InProgress(workflow: string)
    | JobFailed(workflow: string, job: string)
    | JobMissing(workflow: string, job: string)

  const PYTHON: string := "Python CI"
  const DASHBOARD: string := "Dashboard Quality"
  const SENSOR_E2E: string := "Windows Sensor E2E (frozen -> Linux-built console)"

  function RequiredJobs(workflow: string): seq<string> {
    if workflow == PYTHON then ["Linux Full Suite", "Windows Sensor Smoke", "Windows Sensor Build", SENSOR_E2E]
    else if workflow == DASHBOARD then
      ["Axe + Console Gate", "E2E Smoke (real server + committed bundle)", "Bundle Freshness Gate"]
    else []
  }

  const ADVISORY: set<(string, string)> := {
    (PYTHON, "Windows Packaging Spike"), (PYTHON, "Browser E2E"),
    (DASHBOARD, "Regenerate a11y Baselines (Linux, manual)")
  }

  const DISPATCH_ADVISORY: set<(string, string)> := {(PYTHON, SENSOR_E2E)}

  /** Whether a job must succeed. A job nobody classified must. */
  predicate Required(workflow: string, job: string, event: string) {
    if event == "workflow_dispatch" && (workflow, job) in DISPATCH_ADVISORY then false
    else if job in RequiredJobs(workflow) then true
    else (workflow, job) !in ADVISORY
  }

  /** Which jobs gate, and which have to be reported. */
  datatype Policy = Policy(gates: (string, string, string) -> bool, names: string -> seq<string>)

  function Reviewed(): Policy {
    Policy((workflow, job, event) => Required(workflow, job, event), workflow => RequiredJobs(workflow))
  }

  predicate Succeeded(j: Job) {
    j.conclusion == Some("success")
  }

  // ---------------------------------------------------------------- which jobs gate

  /** The jobs that are reported but do not gate. */
  ghost predicate Excused(workflow: string, job: string, event: string) {
    || (workflow == "Python CI" && (job == "Windows Packaging Spike" || job == "Browser E2E"))
    || (workflow == "Dashboard Quality" && job == "Regenerate a11y Baselines (Linux, manual)")
    || (workflow == "Python CI" && event == "workflow_dispatch"
        && job == "Windows Sensor E2E (frozen -> Linux-built console)")
  }

  /** The jobs that have to be reported, in order. */
  ghost function Demanded(workflow: string): seq<string> {
    if workflow == "Python CI" then
      ["Linux Full Suite", "Windows Sensor Smoke", "Windows Sensor Build",
       "Windows Sensor E2E (frozen -> Linux-built console)"]
    else if workflow == "Dashboard Quality" then
      ["Axe + Console Gate", "E2E Smoke (real server + committed bundle)", "Bundle Freshness Gate"]
    else []
  }

  lemma RequiredMeans(workflow: string, job: string, event: string)
    ensures Required(workflow, job, event) <==> !Excused(workflow, job, event)
    ensures RequiredJobs(workflow) == Demanded(workflow)
  {
    if workflow == PYTHON && job == SENSOR_E2E && event != "workflow_dispatch" {
      assert RequiredJobs(workflow)[3] == job;
    }
    if job in RequiredJobs(workflow) && (workflow, job) in ADVISORY {
      NotBoth(workflow, job);
    }
  }

  lemma NotBoth(workflow: string, job: string)
    requires job in RequiredJobs(workflow)
    ensures (workflow, job) !in ADVISORY
  {
  }

  // ---------------------------------------------------------------- collecting

  function AtHead(runs: seq<Run>, head: string): seq<Run>
    decreases |runs|
  {
    if |runs| == 0 then []
    else AtHead(runs[..|runs| - 1], head) + if runs[|runs| - 1].sha == head then [runs[|runs| - 1]] else []
  }

  /** The latest run at the branch's head, the first of equals; runs of other commits never count. */
  method CollectWorkflow(name: string, runs: seq<Run>, head: string) returns (e: Entry)
    ensures e.name == name
    ensures e.run.None? <==> forall r :: r in runs ==> r.sha != head
    ensures e.run.Some? ==> e.run.value in runs && e.run.value.sha == head
    ensures e.run.Some? ==> forall r :: r in runs && r.sha == head ==> r.created <= e.run.value.created
    ensures e.run.Some? ==>
              exists k :: 0 <= k < |runs| && runs[k] == e.run.value
                          && forall j :: 0 <= j < k && runs[j].sha == head ==> runs[j].created < e.run.value.created
  {
    var atHead := AtHead(runs, head);
    forall r ensures r in atHead <==> r in runs && r.sha == head {
      InAtHead(runs, head, r);
    }
    if |atHead| == 0 {
      forall r | r in runs ensures r.sha != head {
        assert r !in atHead;
      }
      return Entry(name, None);
    }
    var latest := atHead[0];
    ghost var at := 0;
    for i := 1 to |atHead|
      invariant at < i && latest == atHead[at]
      invariant forall j :: 0 <= j < at ==> atHead[j].created < latest.created
      invariant forall j :: 0 <= j < i ==> atHead[j].created <= latest.created
    {
      if atHead[i].created > latest.created {
        latest, at := atHead[i], i;
      }
    }
    var k := AtHeadPlace(runs, head, at);
    forall j | 0 <= j < k && runs[j].sha == head ensures runs[j].created < latest.created {
      assert runs[j] == runs[..k][j];
      InAtHead(runs[..k], head, runs[j]);
      assert runs[j] in atHead[..at];
    }
    return Entry(name, Some(latest));
  }

  lemma {:induction false} InAtHead(runs: seq<Run>, head: string, r: Run)
    ensures r in AtHead(runs, head) <==> r in runs && r.sha == head
    decreases |runs|
  {
    if |runs| > 0 {
      InAtHead(runs[..|runs| - 1], head, r);
      assert runs == runs[..|runs| - 1] + [runs[|runs| - 1]];
    }
  }

  /** Where a run at the head stands among all the runs. */
  lemma {:induction false} AtHeadPlace(runs: seq<Run>, head: string, i: nat) returns (k: nat)
    requires i < |AtHead(runs, head)|
    ensures k < |runs| && runs[k] == AtHead(runs, head)[i] && AtHead(runs[..k], head) == AtHead(runs, head)[..i]
    decreases |runs|
  {
    var last := |runs| - 1;
    if i < |AtHead(runs[..last], head)| {
      k := AtHeadPlace(runs[..last], head, i);
      assert runs[..last][..k] == runs[..k];
    } else {
      k := last;
    }
  }

  // ---------------------------------------------------------------- one workflow

  ghost predicate HasJob(jobs: seq<Job>, name: string) {
    exists i :: 0 <= i < |jobs| && jobs[i].name == name
  }

  ghost function Names(jobs: seq<Job>): set<string> {
    set j | j in jobs :: j.name
  }

  lemma NamesSnoc(jobs: seq<Job>, job: Job)
    ensures Names(jobs + [job]) == Names(jobs) + {job.name}
  {
  }

  lemma NamedIs(jobs: seq<Job>, name: string)
    ensures name in Names(jobs) <==> HasJob(jobs, name)
  {
    if i :| 0 <= i < |jobs| && jobs[i].name == name {
      assert jobs[i] in jobs;
    }
  }

  /** The job was to succeed, and did not. */
  ghost predicate Fails(p: Policy, workflow: string, event: string, job: Job) {
    p.gates(workflow, job.name, event) && job.conclusion != Some("success")
  }

  /** The job was to be reported, and was not. */
  ghost predicate IsMissing(p: Policy, workflow: string, run: Run, name: string) {
    p.gates(workflow, name, run.event) && !HasJob(run.jobs, name)
  }

  /** Every reported job that gates succeeded, and every one demanded was reported. */
  ghost predicate Passes(p: Policy, workflow: string, run: Run) {
    && (forall i :: 0 <= i < |run.jobs| ==> !Fails(p, workflow, run.event, run.jobs[i]))
    && (forall k :: 0 <= k < |p.names(workflow)| ==> !IsMissing(p, workflow, run, p.names(workflow)[k]))
  }

  ghost function Failing(p: Policy, workflow: string, run: Run): Job -> bool {
    job => Fails(p, workflow, run.event, job)
  }

  ghost function AsFailed(workflow: string): Job -> Reason {
    (job: Job) => JobFailed(workflow, job.name)
  }

  ghost function Absent(p: Policy, workflow: string, run: Run): string -> bool {
    name => IsMissing(p, workflow, run, name)
  }

  ghost function AsMissing(workflow: string): string -> Reason {
    (name: string) => JobMissing(workflow, name)
  }

  ghost predicate AllFailures(p: Policy, workflow: string, run: Run, failures: seq<Reason>) {
    Filtered(run.jobs, Failing(p, workflow, run), AsFailed(workflow), failures)
  }

  ghost predicate AllGaps(p: Policy, workflow: string, run: Run, gaps: seq<Reason>) {
    Filtered(p.names(workflow), Absent(p, workflow, run), AsMissing(workflow), gaps)
  }

  /** The reasons for one workflow: that there is no run at the head, that it is not done, or each job
      that failed and then each that is missing, in order. */
  ghost predicate Reported(p: Policy, e: Entry, added: seq<Reason>) {
    if e.run.None? then added == [NoRunAtHead(e.name)]
    else if !e.run.value.completed then added == [InProgress(e.name)]
    else
      exists failures, gaps ::
        added == failures + gaps && AllFailures(p, e.name, e.run.value, failures) && AllGaps(p, e.name, e.run.value, gaps)
  }

  ghost predicate Observed(e: Entry) {
    e.run.Some? && e.run.value.completed
  }

  ghost function StateOf(p: Policy, e: Entry): State {
    if !Observed(e) then Unobserved else if Passes(p, e.name, e.run.value) then Green else Red
  }

  /** The list of reasons all workflows report to. */
  class Reasons {
    var items: seq<Reason>

    constructor ()
      ensures items == []
    {
      items := [];
    }
  }

  /** The failures among the jobs, one after the other. */
  ghost function FailuresOf(p: Policy, workflow: string, event: string, jobs: seq<Job>): seq<Reason>
    decreases |jobs|
  {
    if |jobs| == 0 then []
    else
      var job := jobs[|jobs| - 1];
      FailuresOf(p, workflow, event, jobs[..|jobs| - 1])
      + if Fails(p, workflow, event, job) then [JobFailed(workflow, job.name)] else []
  }

  ghost function GapsOf(p: Policy, workflow: string, run: Run, names: seq<string>): seq<Reason>
    decreases |names|
  {
    if |names| == 0 then []
    else
      var name := names[|names| - 1];
      GapsOf(p, workflow, run, names[..|names| - 1])
      + if IsMissing(p, workflow, run, name) then [JobMissing(workflow, name)] else []
  }

  ghost function RunReasons(p: Policy, workflow: string, run: Run): seq<Reason> {
    FailuresOf(p, workflow, run.event, run.jobs) + GapsOf(p, workflow, run, p.names(workflow))
  }

  ghost function ReasonsOf(p: Policy, e: Entry): seq<Reason> {
    if e.run.None? then [NoRunAtHead(e.name)]
    else if !e.run.value.completed then [InProgress(e.name)]
    else RunReasons(p, e.name, e.run.value)
  }

  lemma {:induction false} FailuresMean(p: Policy, workflow: string, run: Run, jobs: seq<Job>)
    ensures Filtered(jobs, Failing(p, workflow, run), AsFailed(workflow), FailuresOf(p, workflow, run.event, jobs))
    decreases |jobs|
  {
    if |jobs| == 0 {
      FilteredNone(Failing(p, workflow, run), AsFailed(workflow));
    } else {
      var init := jobs[..|jobs| - 1];
      FailuresMean(p, workflow, run, init);
      FilteredLast(jobs, Failing(p, workflow, run), AsFailed(workflow), FailuresOf(p, workflow, run.event, init),
                   FailuresOf(p, workflow, run.event, jobs));
    }
  }

  lemma {:induction false} GapsMean(p: Policy, workflow: string, run: Run, names: seq<string>)
    ensures Filtered(names, Absent(p, workflow, run), AsMissing(workflow), GapsOf(p, workflow, run, names))
    decreases |names|
  {
    if |names| == 0 {
      FilteredNone(Absent(p, workflow, run), AsMissing(workflow));
    } else {
      var init := names[..|names| - 1];
      GapsMean(p, workflow, run, init);
      FilteredLast(names, Absent(p, workflow, run), AsMissing(workflow), GapsOf(p, workflow, run, init),
                   GapsOf(p, workflow, run, names));
    }
  }

  lemma NoFailures(p: Policy, workflow: string, run: Run)
    ensures AllFailures(p, workflow, run, FailuresOf(p, workflow, run.event, run.jobs))
    ensures FailuresOf(p, workflow, run.event, run.jobs) == [] <==>
              forall i :: 0 <= i < |run.jobs| ==> !Fails(p, workflow, run.event, run.jobs[i])
  {
    FailuresMean(p, workflow, run, run.jobs);
    FilteredEmpty(run.jobs, Failing(p, workflow, run), AsFailed(workflow), FailuresOf(p, workflow, run.event, run.jobs));
    assert forall i :: 0 <= i < |run.jobs| ==>
             (Failing(p, workflow, run)(run.jobs[i]) <==> Fails(p, workflow, run.event, run.jobs[i]));
  }

  lemma NoGaps(p: Policy, workflow: string, run: Run)
    ensures AllGaps(p, workflow, run, GapsOf(p, workflow, run, p.names(workflow)))
    ensures GapsOf(p, workflow, run, p.names(workflow)) == [] <==>
              forall k :: 0 <= k < |p.names(workflow)| ==> !IsMissing(p, workflow, run, p.names(workflow)[k])
  {
    var names := p.names(workflow);
    GapsMean(p, workflow, run, names);
    FilteredEmpty(names, Absent(p, workflow, run), AsMissing(workflow), GapsOf(p, workflow, run, names));
    assert forall k :: 0 <= k < |names| ==> (Absent(p, workflow, run)(names[k]) <==> IsMissing(p, workflow, run, names[k]));
  }

  lemma RunReasonsMean(p: Policy, workflow: string, run: Run)
    ensures AllFailures(p, workflow, run, FailuresOf(p, workflow, run.event, run.jobs))
    ensures AllGaps(p, workflow, run, GapsOf(p, workflow, run, p.names(workflow)))
    ensures Passes(p, workflow, run) <==> RunReasons(p, workflow, run) == []
  {
    NoFailures(p, workflow, run);
    NoGaps(p, workflow, run);
  }

  lemma ReasonsMean(p: Policy, e: Entry)
    ensures Reported(p, e, ReasonsOf(p, e))
    ensures StateOf(p, e).Green? <==> ReasonsOf(p, e) == []
  {
    if Observed(e) {
      RunReasonsMean(p, e.name, e.run.value);
    }
  }

  method EvaluateWorkflow(p: Policy, e: Entry, reasons: Reasons) returns (state: State)
    modifies reasons
    ensures state == StateOf(p, e)
    ensures reasons.items == old(reasons.items) + ReasonsOf(p, e)
    ensures state.Green? <==> ReasonsOf(p, e) == []
  {
    ReasonsMean(p, e);
    if e.run.None? {
      reasons.items := reasons.items + [NoRunAtHead(e.name)];
      return Unobserved;
    }
    if !e.run.value.completed {
      reasons.items := reasons.items + [InProgress(e.name)];
      return Unobserved;
    }
    var red := JudgeRun(p, e.name, e.run.value, reasons);
    return if red then Red else Green;
  }

  /** A completed run: first the jobs that were reported, then those that were not. */
  method JudgeRun(p: Policy, name: string, run: Run, reasons: Reasons) returns (red: bool)
    modifies reasons
    ensures reasons.items == old(reasons.items) + RunReasons(p, name, run) && (red <==> RunReasons(p, name, run) != [])
  {
    var failed, seen := CheckJobs(p, name, run, reasons);
    var missing := CheckNames(p, name, run, seen, reasons);
    red := failed || missing;
  }

  lemma JobNext(p: Policy, name: string, event: string, jobs: seq<Job>, i: nat)
    requires i < |jobs|
    ensures Names(jobs[..i + 1]) == Names(jobs[..i]) + {jobs[i].name}
    ensures FailuresOf(p, name, event, jobs[..i + 1]) ==
            FailuresOf(p, name, event, jobs[..i])
            + if p.gates(name, jobs[i].name, event) && !Succeeded(jobs[i]) then [JobFailed(name, jobs[i].name)] else []
  {
    assert jobs[..i + 1] == jobs[..i] + [jobs[i]] && jobs[..i + 1][..i] == jobs[..i];
    NamesSnoc(jobs[..i], jobs[i]);
  }

  /** Report every job that gates and did not succeed. */
  method CheckJobs(p: Policy, name: string, run: Run, reasons: Reasons) returns (red: bool, seen: set<string>)
    modifies reasons
    ensures seen == Names(run.jobs)
    ensures reasons.items == old(reasons.items) + FailuresOf(p, name, run.event, run.jobs)
    ensures red <==> FailuresOf(p, name, run.event, run.jobs) != []
  {
    red, seen := false, {};
    ghost var before := reasons.items;
    for i := 0 to |run.jobs|
      invariant seen == Names(run.jobs[..i])
      invariant reasons.items == before + FailuresOf(p, name, run.event, run.jobs[..i])
      invariant red <==> |FailuresOf(p, name, run.event, run.jobs[..i])| > 0
    {
      var job := run.jobs[i];
      JobNext(p, name, run.event, run.jobs, i);
      seen := seen + {job.name};
      if p.gates(name, job.name, run.event) && !Succeeded(job) {
        red := true;
        reasons.items := reasons.items + [JobFailed(name, job.name)];
      }
    }
    assert run.jobs[..|run.jobs|] == run.jobs;
  }

  /** Report every name that is demanded and was not reported. */
  method CheckNames(p: Policy, name: string, run: Run, seen: set<string>, reasons: Reasons) returns (red: bool)
    requires seen == Names(run.jobs)
    modifies reasons
    ensures reasons.items == old(reasons.items) + GapsOf(p, name, run, p.names(name))
    ensures red <==> GapsOf(p, name, run, p.names(name)) != []
  {
    var names := p.names(name);
    red := false;
    for k := 0 to |names|
      invariant reasons.items == old(reasons.items) + GapsOf(p, name, run, names[..k])
      invariant red <==> GapsOf(p, name, run, names[..k]) != []
    {
      assert names[..k + 1][..k] == names[..k];
      NamedIs(run.jobs, names[k]);
      if names[k] !in seen && p.gates(name, names[k], run.event) {
        red := true;
        reasons.items := reasons.items + [JobMissing(name, names[k])];
      }
    }
    assert names[..|names|] == names;
  }

  // ---------------------------------------------------------------- the verdict

  ghost function States(p: Policy, entries: seq<Entry>): seq<State> {
    seq(|entries|, i requires 0 <= i < |entries| => StateOf(p, entries[i]))
  }

  /** Any red workflow decides; then anything unobserved, or nothing to observe. */
  ghost function VerdictOf(states: seq<State>): State {
    if Red in states then Red else if |states| == 0 || Unobserved in states then Unobserved else Green
  }

  ghost function Verdict(p: Policy, entries: seq<Entry>): State {
    VerdictOf(States(p, entries))
  }

  ghost function ReasonsFine(p: Policy, entries: seq<Entry>): (nat, seq<Reason>) -> bool {
    (i: nat, added: seq<Reason>) => i < |entries| && Reported(p, entries[i], added)
  }

  ghost function ReasonsAt(p: Policy, entries: seq<Entry>): nat -> seq<Reason> {
    (i: nat) => if i < |entries| then ReasonsOf(p, entries[i]) else []
  }

  lemma AllReasonsMean(p: Policy, entries: seq<Entry>)
    ensures Pieced(Joined(ReasonsAt(p, entries), |entries|), |entries|, ReasonsFine(p, entries))
  {
    forall i | 0 <= i < |entries| ensures ReasonsFine(p, entries)(i, ReasonsAt(p, entries)(i)) {
      ReasonsMean(p, entries[i]);
    }
    JoinedPieced(ReasonsAt(p, entries), |entries|, ReasonsFine(p, entries));
  }

  lemma StatesMean(p: Policy, entries: seq<Entry>)
    ensures forall i :: 0 <= i < |entries| ==> (States(p, entries)[i].Green? <==> ReasonsAt(p, entries)(i) == [])
  {
    forall i | 0 <= i < |entries| ensures States(p, entries)[i].Green? <==> ReasonsAt(p, entries)(i) == [] {
      ReasonsMean(p, entries[i]);
    }
  }

  lemma AllGreen(states: seq<State>)
    ensures VerdictOf(states).Green? <==> |states| > 0 && forall i :: 0 <= i < |states| ==> states[i].Green?
  {
    forall i | 0 <= i < |states| ensures states[i] in states {
    }
    if Red in states {
      var i :| 0 <= i < |states| && states[i] == Red;
    } else if Unobserved in states {
      var i :| 0 <= i < |states| && states[i] == Unobserved;
    }
  }

  lemma VerdictMeans(states: seq<State>, piece: nat -> seq<Reason>, n: nat)
    requires n == |states| && forall i :: 0 <= i < n ==> (states[i].Green? <==> piece(i) == [])
    ensures VerdictOf(states).Green? <==> Joined(piece, n) == [] && n > 0
  {
    AllGreen(states);
    JoinedEmpty(piece, n);
  }

  method EvaluateBy(p: Policy, entries: seq<Entry>) returns (exitCode: int, verdict: State, reasons: seq<Reason>)
    ensures verdict == Verdict(p, entries)
    ensures exitCode == if verdict.Green? then 0 else 1
    ensures Pieced(reasons, |entries|, ReasonsFine(p, entries))
    ensures verdict.Green? <==> reasons == [] && |entries| > 0
  {
    var log := new Reasons();
    var states := {};
    ghost var all := States(p, entries);
    for i := 0 to |entries|
      invariant fresh(log)
      invariant forall s :: s in states <==> s in all[..i]
      invariant log.items == Joined(ReasonsAt(p, entries), i)
    {
      var s := EvaluateWorkflow(p, entries[i], log);
      assert all[..i + 1] == all[..i] + [s];
      states := states + {s};
    }
    assert all[..|entries|] == all;
    AllReasonsMean(p, entries);
    StatesMean(p, entries);
    VerdictMeans(all, ReasonsAt(p, entries), |entries|);
    if Red in states {
      verdict := Red;
    } else if Unobserved in states || |entries| == 0 {
      verdict := Unobserved;
    } else {
      verdict := Green;
    }
    exitCode := if verdict.Green? then 0 else 1;
    reasons := log.items;
  }

  /** A completed workflow that does not pass, by a failed job or by a required one that is missing,
      makes the verdict red, whatever else was observed or not. */
  lemma FailureIsRedDespiteGaps(p: Policy, entries: seq<Entry>, i: nat)
    requires i < |entries| && Observed(entries[i]) && !Passes(p, entries[i].name, entries[i].run.value)
    ensures Verdict(p, entries).Red?
  {
    assert States(p, entries)[i] == Red;
  }

  // ---------------------------------------------------------------- under the reviewed lists

  /** The verdict under the lists as they are. */
  method Evaluate(entries: seq<Entry>) returns (exitCode: int, verdict: State, reasons: seq<Reason>)
    ensures verdict == Verdict(Reviewed(), entries)
    ensures exitCode == if verdict.Green? then 0 else 1
    ensures Pieced(reasons, |entries|, ReasonsFine(Reviewed(), entries))
    ensures verdict.Green? <==> reasons == [] && |entries| > 0
  {
    exitCode, verdict, reasons := EvaluateBy(Reviewed(), entries);
  }

  /** All that gates succeeded, and all that is demanded and gates was reported. */
  ghost predicate Clean(workflow: string, run: Run) {
    && (forall i :: 0 <= i < |run.jobs| ==>
          run.jobs[i].conclusion == Some("success") || Excused(workflow, run.jobs[i].name, run.event))
    && (forall k :: 0 <= k < |Demanded(workflow)| ==>
          HasJob(run.jobs, Demanded(workflow)[k]) || Excused(workflow, Demanded(workflow)[k], run.event))
  }

  lemma PassesIsClean(workflow: string, run: Run)
    ensures Passes(Reviewed(), workflow, run) <==> Clean(workflow, run)
  {
    var p := Reviewed();
    RequiredMeans(workflow, "", run.event);
    assert p.names(workflow) == Demanded(workflow);
    forall i | 0 <= i < |run.jobs|
      ensures Fails(p, workflow, run.event, run.jobs[i]) <==>
                !(run.jobs[i].conclusion == Some("success") || Excused(workflow, run.jobs[i].name, run.event))
    {
      RequiredMeans(workflow, run.jobs[i].name, run.event);
    }
    forall k | 0 <= k < |Demanded(workflow)|
      ensures IsMissing(p, workflow, run, Demanded(workflow)[k]) <==>
                !(HasJob(run.jobs, Demanded(workflow)[k]) || Excused(workflow, Demanded(workflow)[k], run.event))
    {
      RequiredMeans(workflow, Demanded(workflow)[k], run.event);
    }
  }

  /** Green exactly when there is a workflow, and each has a completed run in which every job that is
      not excused succeeded and every demanded one that is not excused was reported; red exactly when
      some completed run is not so. */
  lemma GreenExactlyWhen(entries: seq<Entry>)
    ensures var verdict := Verdict(Reviewed(), entries);
            && (verdict.Green? <==>
                  && |entries| > 0
                  && forall i :: 0 <= i < |entries| ==> Observed(entries[i]) && Clean(entries[i].name, entries[i].run.value))
            && (verdict.Red? <==>
                  exists i :: 0 <= i < |entries| && Observed(entries[i]) && !Clean(entries[i].name, entries[i].run.value))
  {
    forall i | 0 <= i < |entries| && Observed(entries[i])
      ensures Passes(Reviewed(), entries[i].name, entries[i].run.value) <==> Clean(entries[i].name, entries[i].run.value)
    {
      PassesIsClean(entries[i].name, entries[i].run.value);
    }
    VerdictIs(Reviewed(), entries);
  }

  lemma VerdictIs(p: Policy, entries: seq<Entry>)
    ensures var verdict := Verdict(p, entries);
            && (verdict.Green? <==>
                  && |entries| > 0
                  && forall i :: 0 <= i < |entries| ==>
                       Observed(entries[i]) && Passes(p, entries[i].name, entries[i].run.value))
            && (verdict.Red? <==>
                  exists i :: 0 <= i < |entries| && Observed(entries[i]) && !Passes(p, entries[i].name, entries[i].run.value))
  {
    var states := States(p, entries);
    forall i | 0 <= i < |entries|
      ensures states[i].Green? <==> Observed(entries[i]) && Passes(p, entries[i].name, entries[i].run.value)
      ensures states[i].Red? <==> Observed(entries[i]) && !Passes(p, entries[i].name, entries[i].run.value)
      ensures states[i] in states
    {
    }
    if Red in states {
      var i :| 0 <= i < |states| && states[i] == Red;
    }
    if Unobserved in states {
      var i :| 0 <= i < |states| && states[i] == Unobserved;
    }
  }

  /** Fail-closed: a reported job that did not succeed makes the verdict red unless somebody listed
      it as advisory, or it is the one that manual dispatches excuse. */
  lemma UnlistedFailureIsRed(entries: seq<Entry>, i: nat, job: nat)
    requires i < |entries| && Observed(entries[i]) && job < |entries[i].run.value.jobs|
    requires var run := entries[i].run.value;
             && run.jobs[job].conclusion != Some("success")
             && (entries[i].name, run.jobs[job].name) !in ADVISORY
             && (run.event == "workflow_dispatch" ==> (entries[i].name, run.jobs[job].name) !in DISPATCH_ADVISORY)
    ensures Verdict(Reviewed(), entries).Red?
  {
    var e, run := entries[i], entries[i].run.value;
    RequiredMeans(e.name, run.jobs[job].name, run.event);
    assert Fails(Reviewed(), e.name, run.event, run.jobs[job]);
    FailureIsRedDespiteGaps(Reviewed(), entries, i);
  }
}
