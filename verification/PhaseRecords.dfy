/** Per-phase coverage: every scanner phase leaves one row saying that it ran, was skipped and
    why, failed, or was completed by a prior run; the rows are upserted on (run, phase). */
module PhaseRecords {
  import opened StageChain
  import opened Wrappers

  datatype PhaseName =
    | TlsScanning | SshScanning | OtIcsSupplemental | PqcProbe
    | JwtScanning | ContainerScanning | SourceScanning | OpenapiScanning | FuzzScanning
    | AwsScanning | AzureScanning | GcpScanning | DbScanning
    | S3Scanning | BlobScanning | K8sScanning | DnssecScanning | SamlScanning
    | KerberosScanning | SmimeScanning | AdcsScanning | CodesignScanning | VaultScanning
    | EmailScanning | BrokerScanning

  datatype Slot = Slot(stage: Option<Stage>, phase: PhaseName)

  /** The phases in the order they run, with the stage whose checkpoint skips them, if any. */
  const SLOTS: seq<Slot> := [
    Slot(Some(Tls), TlsScanning),
    Slot(Some(Ssh), SshScanning),
    Slot(None, OtIcsSupplemental),
    Slot(None, PqcProbe),
    Slot(Some(Api), JwtScanning), Slot(Some(Api), ContainerScanning), Slot(Some(Api), SourceScanning),
    Slot(Some(Api), OpenapiScanning), Slot(Some(Api), FuzzScanning),
    Slot(Some(Identity), AwsScanning), Slot(Some(Identity), AzureScanning), Slot(Some(Identity), GcpScanning),
    Slot(Some(Identity), DbScanning),
    Slot(Some(DataAtRest), S3Scanning), Slot(Some(DataAtRest), BlobScanning), Slot(Some(DataAtRest), K8sScanning),
    Slot(Some(DataAtRest), DnssecScanning), Slot(Some(DataAtRest), SamlScanning),
    Slot(Some(DataAtRest), KerberosScanning), Slot(Some(DataAtRest), SmimeScanning),
    Slot(Some(DataAtRest), AdcsScanning), Slot(Some(DataAtRest), CodesignScanning),
    Slot(Some(DataAtRest), VaultScanning),
    Slot(Some(BrokerEmail), EmailScanning), Slot(Some(BrokerEmail), BrokerScanning)
  ]

  datatype Reason = DisabledByConfig | MissingExtra | NoEligibleTargets | MissingCredentials | MissingBinary | Failed

  /** A reason as passed to `skip`: one of the six, or text that is refused. */
  datatype Given = Valid(reason: Reason) | Invalid(text: string)

  datatype Status = Ran | Skipped

  datatype Row = Row(phase: PhaseName, status: Status, reason: Option<Reason>, detail: string,
                     duration: Option<int>, backfill: bool)

  /** How a phase function ends. */
  datatype Ending<T> = Value(value: seq<T>) | Sentinel | Raise(message: string) | Abort

  /** A phase function: its calls to `skip`, in order, and its ending. */
  datatype Body<T> = Body(skips: seq<(Given, string)>, ending: Ending<T>)

  const NOT_CLASSIFIED: string := "Skip reason not classified"
  const RESUMED: string := "completed in prior run (resumed)"

  // ---------------------------------------------------------------- what a phase leaves behind

  /** The first refused `skip` call raises on the spot. */
  function Outcome<T>(body: Body<T>): Ending<T> {
    if exists i :: 0 <= i < |body.skips| && body.skips[i].0.Invalid? then Raise("Unknown scan phase skip reason")
    else body.ending
  }

  function RanRow(phase: PhaseName, duration: int): Row {
    Row(phase, Ran, None, "", Some(duration), false)
  }

  function FailedRow(phase: PhaseName, detail: string): Row {
    Row(phase, Skipped, Some(Failed), detail, None, false)
  }

  function ResumedRow(phase: PhaseName): Row {
    Row(phase, Skipped, None, RESUMED, None, true)
  }

  /** A skipped phase is classified by its own last `skip` call, if it made one. */
  function SkippedRow<T>(phase: PhaseName, body: Body<T>): Row {
    if |body.skips| > 0 && body.skips[|body.skips| - 1].0.Valid? then
      var (given, detail) := body.skips[|body.skips| - 1];
      Row(phase, Skipped, Some(given.reason), detail, None, false)
    else Row(phase, Skipped, None, NOT_CLASSIFIED, None, false)
  }

  /** The one row a phase leaves, none if the user aborted. */
  function RowsOf<T>(phase: PhaseName, body: Body<T>, took: int): seq<Row> {
    match Outcome(body)
    case Value(_) => [RanRow(phase, took)]
    case Sentinel => [SkippedRow(phase, body)]
    case Raise(message) => [FailedRow(phase, message)]
    case Abort => []
  }

  // ---------------------------------------------------------------- the recorder

  class PhaseRecorder {
    var rows: seq<Row>
    var pendingReason: Option<Reason>
    var pendingDetail: string

    constructor ()
      ensures rows == [] && pendingReason == None
    {
      rows, pendingReason, pendingDetail := [], None, "";
    }

    /** Classify the skip that is about to be signalled; an unlisted reason raises. */
    method Skip(given: Given, detail: string) returns (accepted: bool)
      modifies this`pendingReason, this`pendingDetail
      ensures accepted <==> given.Valid?
      ensures accepted ==> pendingReason == Some(given.reason) && pendingDetail == detail
      ensures !accepted ==> pendingReason == old(pendingReason) && pendingDetail == old(pendingDetail)
    {
      accepted := given.Valid?;
      if accepted {
        pendingReason, pendingDetail := Some(given.reason), detail;
      }
    }

    method RecordRan(phase: PhaseName, duration: int)
      modifies this
      ensures rows == old(rows) + [RanRow(phase, duration)] && pendingReason == None
    {
      pendingReason, pendingDetail := None, "";
      rows := rows + [RanRow(phase, duration)];
    }

    method RecordSkipped(phase: PhaseName)
      modifies this
      ensures rows == old(rows) + [Row(phase, Skipped, old(pendingReason),
                                       if old(pendingReason) != None then old(pendingDetail) else NOT_CLASSIFIED,
                                       None, false)]
      ensures pendingReason == None
    {
      var reason, detail := pendingReason, if pendingReason != None then pendingDetail else NOT_CLASSIFIED;
      pendingReason, pendingDetail := None, "";
      rows := rows + [Row(phase, Skipped, reason, detail, None, false)];
    }

    method RecordResumed(phase: PhaseName)
      modifies this
      ensures rows == old(rows) + [ResumedRow(phase)] && pendingReason == old(pendingReason)
    {
      rows := rows + [ResumedRow(phase)];
    }

    method RecordFailed(phase: PhaseName, detail: string)
      modifies this
      ensures rows == old(rows) + [FailedRow(phase, detail)] && pendingReason == None
    {
      pendingReason, pendingDetail := None, "";
      rows := rows + [FailedRow(phase, detail)];
    }
  }

  class RunStats {
    var timings: map<PhaseName, int>
    var errors: seq<PhaseName>

    constructor ()
      ensures timings == map[] && errors == []
    {
      timings, errors := map[], [];
    }
  }

  /** Make the `skip` calls of a body; stops at the first refused one. */
  method CallSkips<T>(recorder: PhaseRecorder, body: Body<T>) returns (raised: bool)
    requires recorder.pendingReason == None
    modifies recorder`pendingReason, recorder`pendingDetail
    ensures raised <==> exists i :: 0 <= i < |body.skips| && body.skips[i].0.Invalid?
    ensures !raised && |body.skips| == 0 ==> recorder.pendingReason == None
    ensures !raised && |body.skips| > 0 ==>
              var (given, detail) := body.skips[|body.skips| - 1];
              given.Valid? && recorder.pendingReason == Some(given.reason) && recorder.pendingDetail == detail
  {
    for i := 0 to |body.skips|
      invariant forall j :: 0 <= j < i ==> body.skips[j].0.Valid?
      invariant i == 0 ==> recorder.pendingReason == None
      invariant i > 0 ==> recorder.pendingReason == Some(body.skips[i - 1].0.reason)
                          && recorder.pendingDetail == body.skips[i - 1].1
    {
      var accepted := recorder.Skip(body.skips[i].0, body.skips[i].1);
      if !accepted {
        return true;
      }
    }
    return false;
  }

  /** Run one phase under protection: everything but a user abort is recorded and survived. */
  method WrappedPhase<T>(recorder: PhaseRecorder, stats: RunStats, phase: PhaseName, body: Body<T>, took: int)
    returns (result: seq<T>, aborted: bool)
    requires recorder.pendingReason == None
    modifies recorder, stats
    ensures aborted <==> Outcome(body).Abort?
    ensures recorder.rows == old(recorder.rows) + RowsOf(phase, body, took)
    ensures !aborted ==> recorder.pendingReason == None
    ensures result == if Outcome(body).Value? then Outcome(body).value else []
    ensures stats.timings == if Outcome(body).Sentinel? then old(stats.timings) else old(stats.timings)[phase := took]
    ensures stats.errors == old(stats.errors) + if Outcome(body).Raise? then [phase] else []
  {
    result, aborted := [], false;
    var raised := CallSkips(recorder, body);
    var ending := if raised then Raise("Unknown scan phase skip reason") else body.ending;
    match ending {
      case Sentinel =>
        recorder.RecordSkipped(phase);
      case Value(value) =>
        stats.timings := stats.timings[phase := took];
        recorder.RecordRan(phase, took);
        result := value;
      case Raise(message) =>
        // The timer's exit also runs for a failing phase.
        stats.timings := stats.timings[phase := took];
        recorder.RecordFailed(phase, message);
        stats.errors := stats.errors + [phase];
      case Abort =>
        stats.timings := stats.timings[phase := took];
        aborted := true;
    }
  }

  // ---------------------------------------------------------------- a whole scan

  predicate Resumed(completed: set<Stage>, slot: Slot) {
    slot.stage.Some? && slot.stage.value in completed
  }

  /** The row a phase leaves. An abort ends the process before any row is flushed; what stands
      here for it is never used. */
  function SlotRow<T>(completed: set<Stage>, slot: Slot, bodies: PhaseName -> Body<T>, took: PhaseName -> int): Row {
    var body := bodies(slot.phase);
    if Resumed(completed, slot) then ResumedRow(slot.phase)
    else match Outcome(body)
      case Value(_) => RanRow(slot.phase, took(slot.phase))
      case Sentinel => SkippedRow(slot.phase, body)
      case Raise(message) => FailedRow(slot.phase, message)
      case Abort => ResumedRow(slot.phase)
  }

  function ScanRows<T>(completed: set<Stage>, slots: seq<Slot>, bodies: PhaseName -> Body<T>, took: PhaseName -> int): seq<Row> {
    seq(|slots|, i requires 0 <= i < |slots| => SlotRow(completed, slots[i], bodies, took))
  }

  predicate Aborts<T>(completed: set<Stage>, slot: Slot, bodies: PhaseName -> Body<T>) {
    !Resumed(completed, slot) && Outcome(bodies(slot.phase)).Abort?
  }

  /** The stage of the phase was completed by an earlier run. */
  ghost predicate DoneBefore(completed: set<Stage>, slot: Slot) {
    slot.stage.Some? && slot.stage.value in completed
  }

  /** Some `skip` call of the phase was refused, which raises. */
  ghost predicate Refused<T>(body: Body<T>) {
    exists i :: 0 <= i < |body.skips| && body.skips[i].0.Invalid?
  }

  /** The row is the phase's own doing: it says that the phase was completed before; or that it ran, and
      for how long; or that it was skipped, for the reason its own last `skip` call gave, if it made
      one; or that it failed, and with what message. */
  ghost predicate OwnDoing<T>(completed: set<Stage>, slot: Slot, body: Body<T>, took: int, row: Row) {
    && row.phase == slot.phase
    && if DoneBefore(completed, slot) then
         && row.status == Skipped && row.reason == None && row.detail == "completed in prior run (resumed)"
         && row.duration == None && row.backfill
       else
         && !row.backfill
         && if Refused(body) || body.ending.Raise? then
              && row.status == Skipped && row.reason == Some(Failed) && row.duration == None
              && row.detail == if Refused(body) then "Unknown scan phase skip reason" else body.ending.message
            else if body.ending.Value? then
              row.status == Ran && row.reason == None && row.detail == "" && row.duration == Some(took)
            else
              && body.ending.Sentinel? && row.status == Skipped && row.duration == None
              && if |body.skips| == 0 then row.reason == None && row.detail == "Skip reason not classified"
                 else
                   var (given, detail) := body.skips[|body.skips| - 1];
                   given.Valid? && row.reason == Some(given.reason) && row.detail == detail
  }

  ghost predicate OwnDoings<T>(completed: set<Stage>, slots: seq<Slot>, bodies: PhaseName -> Body<T>,
                               took: PhaseName -> int, rows: seq<Row>) {
    && |rows| <= |slots|
    && forall i :: 0 <= i < |rows| ==> OwnDoing(completed, slots[i], bodies(slots[i].phase), took(slots[i].phase), rows[i])
  }

  lemma SlotRowIsItsOwn<T>(completed: set<Stage>, slot: Slot, bodies: PhaseName -> Body<T>, took: PhaseName -> int)
    requires !Aborts(completed, slot, bodies)
    ensures OwnDoing(completed, slot, bodies(slot.phase), took(slot.phase), SlotRow(completed, slot, bodies, took))
  {
  }

  lemma RowsAreTheirOwn<T>(completed: set<Stage>, slots: seq<Slot>, n: nat, bodies: PhaseName -> Body<T>, took: PhaseName -> int)
    requires n <= |slots| && forall i :: 0 <= i < n ==> !Aborts(completed, slots[i], bodies)
    ensures OwnDoings(completed, slots, bodies, took, ScanRows(completed, slots[..n], bodies, took))
  {
    forall i | 0 <= i < n
      ensures OwnDoing(completed, slots[i], bodies(slots[i].phase), took(slots[i].phase),
                       ScanRows(completed, slots[..n], bodies, took)[i])
    {
      SlotRowIsItsOwn(completed, slots[i], bodies, took);
    }
  }

  /** An abort of the phase itself, not of an earlier `skip` call. */
  ghost predicate Quits<T>(completed: set<Stage>, slot: Slot, body: Body<T>) {
    !DoneBefore(completed, slot) && !Refused(body) && body.ending.Abort?
  }

  lemma AbortsIs<T>(completed: set<Stage>, slot: Slot, bodies: PhaseName -> Body<T>)
    ensures Aborts(completed, slot, bodies) <==> Quits(completed, slot, bodies(slot.phase))
  {
  }

  /** The phases of a scan, in order; those of the stages in `completed` get resume markers instead.
      The recorder holds one pending reason for all of them, and yet each row is its phase's own. */
  method RunPhases<T>(recorder: PhaseRecorder, stats: RunStats, completed: set<Stage>, slots: seq<Slot>,
                      bodies: PhaseName -> Body<T>, took: PhaseName -> int)
    returns (aborted: bool)
    requires recorder.rows == [] && recorder.pendingReason == None
    modifies recorder, stats
    ensures aborted <==> exists i :: 0 <= i < |slots| && Quits(completed, slots[i], bodies(slots[i].phase))
    ensures !aborted ==> recorder.rows == ScanRows(completed, slots, bodies, took)
    ensures OwnDoings(completed, slots, bodies, took, recorder.rows) && (!aborted ==> |recorder.rows| == |slots|)
  {
    for i := 0 to |slots|
      invariant recorder.pendingReason == None
      invariant forall j :: 0 <= j < i ==> !Aborts(completed, slots[j], bodies)
      invariant forall j :: 0 <= j < i ==> !Quits(completed, slots[j], bodies(slots[j].phase))
      invariant recorder.rows == ScanRows(completed, slots[..i], bodies, took)
    {
      var slot := slots[i];
      ScanRowsSnoc(completed, slots, bodies, took, i);
      AbortsIs(completed, slot, bodies);
      if Resumed(completed, slot) {
        recorder.RecordResumed(slot.phase);
      } else {
        var _, stop := WrappedPhase(recorder, stats, slot.phase, bodies(slot.phase), took(slot.phase));
        if stop {
          assert Aborts(completed, slots[i], bodies);
          RowsAreTheirOwn(completed, slots, i, bodies, took);
          return true;
        }
        SlotRowLeft(completed, slot, bodies, took);
      }
    }
    assert slots[..|slots|] == slots;
    RowsAreTheirOwn(completed, slots, |slots|, bodies, took);
    return false;
  }

  lemma ScanRowsSnoc<T>(completed: set<Stage>, slots: seq<Slot>, bodies: PhaseName -> Body<T>, took: PhaseName -> int, i: nat)
    requires i < |slots|
    ensures ScanRows(completed, slots[..i + 1], bodies, took)
         == ScanRows(completed, slots[..i], bodies, took) + [SlotRow(completed, slots[i], bodies, took)]
  {
  }

  lemma SlotRowLeft<T>(completed: set<Stage>, slot: Slot, bodies: PhaseName -> Body<T>, took: PhaseName -> int)
    requires !Resumed(completed, slot) && !Aborts(completed, slot, bodies)
    ensures RowsOf(slot.phase, bodies(slot.phase), took(slot.phase)) == [SlotRow(completed, slot, bodies, took)]
  {
  }

  // ---------------------------------------------------------------- the table

  datatype Key = Key(run: string, phase: PhaseName)
  datatype Record = Record(status: Status, reason: Option<Reason>, detail: string, duration: Option<int>, recordedAt: int)

  function RecordOf(row: Row, now: int): Record {
    Record(row.status, row.reason, row.detail, row.duration, now)
  }

  /** Two new rows with one name would both be inserted, and the commit would be refused. */
  ghost predicate CommitRefused(records: map<Key, Record>, run: string, rows: seq<Row>) {
    exists i, j :: 0 <= i < j < |rows| && rows[i].phase == rows[j].phase && Key(run, rows[i].phase) !in records
  }

  /** The upsert, row by row: lookups see the committed table, which new rows have not reached. */
  function Upserted(records: map<Key, Record>, run: string, rows: seq<Row>, now: int): map<Key, Record>
    decreases |rows|
  {
    if |rows| == 0 then records
    else
      var row := rows[|rows| - 1];
      var before := Upserted(records, run, rows[..|rows| - 1], now);
      if row.backfill && Key(run, row.phase) in records then before
      else before[Key(run, row.phase) := RecordOf(row, now)]
  }

  class CoverageTable {
    var records: map<Key, Record>

    constructor ()
      ensures records == map[]
    {
      records := map[];
    }

    /** Best-effort flush: all rows or none; a database that fails changes nothing. */
    method FlushPhaseRecords(run: string, rows: seq<Row>, now: int, works: bool) returns (committed: bool)
      modifies this
      ensures committed <==> works && !CommitRefused(old(records), run, rows)
      ensures records == if committed then Upserted(old(records), run, rows, now) else old(records)
    {
      var staged, inserted := records, {};
      var refused := false;
      for i := 0 to |rows|
        invariant records == old(records)
        invariant staged == Upserted(records, run, rows[..i], now)
        invariant forall p :: p in inserted <==> exists j :: 0 <= j < i && rows[j].phase == p && Key(run, p) !in records
        invariant refused <==> CommitRefused(records, run, rows[..i])
      {
        var row := rows[i];
        assert rows[..i + 1][..i] == rows[..i];
        if Key(run, row.phase) in records {
          if !row.backfill {
            staged := staged[Key(run, row.phase) := RecordOf(row, now)];
          }
        } else {
          RefusalGrows(records, run, rows, i);
          refused := refused || row.phase in inserted;
          inserted := inserted + {row.phase};
          staged := staged[Key(run, row.phase) := RecordOf(row, now)];
        }
      }
      assert rows[..|rows|] == rows;
      committed := works && !refused;
      if committed {
        records := staged;
      }
    }
  }

  lemma RefusalGrows(records: map<Key, Record>, run: string, rows: seq<Row>, i: nat)
    requires i < |rows| && Key(run, rows[i].phase) !in records
    ensures CommitRefused(records, run, rows[..i + 1]) <==>
              CommitRefused(records, run, rows[..i]) || exists j :: 0 <= j < i && rows[j].phase == rows[i].phase
  {
  }

  // ---------------------------------------------------------------- coverage

  ghost predicate DistinctNames(rows: seq<Row>) {
    forall i, j :: 0 <= i < j < |rows| ==> rows[i].phase != rows[j].phase
  }

  lemma {:induction false} UpsertedAt(records: map<Key, Record>, run: string, rows: seq<Row>, now: int, key: Key)
    requires DistinctNames(rows)
    ensures var after := Upserted(records, run, rows, now);
            && (forall i :: 0 <= i < |rows| && key == Key(run, rows[i].phase) ==>
                  key in after && after[key] == if rows[i].backfill && key in records then records[key]
                                                else RecordOf(rows[i], now))
            && ((forall i :: 0 <= i < |rows| ==> key != Key(run, rows[i].phase)) ==>
                  (key in after <==> key in records) && (key in records ==> after[key] == records[key]))
    decreases |rows|
  {
    if |rows| > 0 {
      UpsertedAt(records, run, rows[..|rows| - 1], now, key);
    }
  }

  /** The place of each phase in `SLOTS`. */
  function Place(p: PhaseName): nat {
    match p
    case TlsScanning => 0 case SshScanning => 1 case OtIcsSupplemental => 2 case PqcProbe => 3
    case JwtScanning => 4 case ContainerScanning => 5 case SourceScanning => 6 case OpenapiScanning => 7
    case FuzzScanning => 8 case AwsScanning => 9 case AzureScanning => 10 case GcpScanning => 11
    case DbScanning => 12 case S3Scanning => 13 case BlobScanning => 14 case K8sScanning => 15
    case DnssecScanning => 16 case SamlScanning => 17 case KerberosScanning => 18 case SmimeScanning => 19
    case AdcsScanning => 20 case CodesignScanning => 21 case VaultScanning => 22
    case EmailScanning => 23 case BrokerScanning => 24
  }

  /** Every phase name has one slot, and only one. */
  ghost predicate OneSlotEach(slots: seq<Slot>, place: PhaseName -> nat) {
    && (forall p :: place(p) < |slots| && slots[place(p)].phase == p)
    && (forall i :: 0 <= i < |slots| ==> place(slots[i].phase) == i)
  }

  lemma PlaceHasItsSlot(p: PhaseName)
    ensures Place(p) < 25 && |SLOTS| == 25 && SLOTS[Place(p)].phase == p
  {
    match p {
      case TlsScanning => case SshScanning => case OtIcsSupplemental => case PqcProbe =>
      case JwtScanning => case ContainerScanning => case SourceScanning => case OpenapiScanning =>
      case FuzzScanning => case AwsScanning => case AzureScanning => case GcpScanning =>
      case DbScanning => case S3Scanning => case BlobScanning => case K8sScanning =>
      case DnssecScanning => case SamlScanning => case KerberosScanning => case SmimeScanning =>
      case AdcsScanning => case CodesignScanning => case VaultScanning =>
      case EmailScanning => case BrokerScanning =>
    }
  }

  lemma SlotHasItsPlace(i: nat)
    requires i < 25
    ensures |SLOTS| == 25 && Place(SLOTS[i].phase) == i
  {
  }

  lemma SlotsCoverThePhases()
    ensures OneSlotEach(SLOTS, Place)
  {
    forall p ensures Place(p) < |SLOTS| && SLOTS[Place(p)].phase == p {
      PlaceHasItsSlot(p);
    }
    PlaceHasItsSlot(TlsScanning);
    forall i | 0 <= i < |SLOTS| ensures Place(SLOTS[i].phase) == i {
      SlotHasItsPlace(i);
    }
  }

  lemma SlotRowNames<T>(completed: set<Stage>, slot: Slot, bodies: PhaseName -> Body<T>, took: PhaseName -> int)
    ensures SlotRow(completed, slot, bodies, took).phase == slot.phase
  {
  }

  lemma ScanRowsDistinct<T>(completed: set<Stage>, slots: seq<Slot>, place: PhaseName -> nat,
                            bodies: PhaseName -> Body<T>, took: PhaseName -> int)
    requires OneSlotEach(slots, place)
    ensures DistinctNames(ScanRows(completed, slots, bodies, took))
  {
    var rows := ScanRows(completed, slots, bodies, took);
    forall i, j | 0 <= i < j < |rows| ensures rows[i].phase != rows[j].phase {
      SlotRowNames(completed, slots[i], bodies, took);
      SlotRowNames(completed, slots[j], bodies, took);
      assert place(slots[i].phase) != place(slots[j].phase);
    }
  }

  /** The record says what the row says, as of now. */
  ghost predicate Records(r: Record, row: Row, now: int) {
    r.status == row.status && r.reason == row.reason && r.detail == row.detail && r.duration == row.duration && r.recordedAt == now
  }

  /** Whatever was resumed and whatever each phase did, unless one aborted and ended the process,
      the flush commits;
      every phase name then has its one record for the run: a resume marker only where there was
      none, otherwise the record of what this very phase did. Records of other runs stay. */
  lemma CoverageIsComplete<T>(completed: set<Stage>, slots: seq<Slot>, place: PhaseName -> nat,
                              bodies: PhaseName -> Body<T>, took: PhaseName -> int,
                              records: map<Key, Record>, run: string, now: int, key: Key)
    requires OneSlotEach(slots, place)
    requires forall i :: 0 <= i < |slots| ==> !Quits(completed, slots[i], bodies(slots[i].phase))
    ensures var rows := ScanRows(completed, slots, bodies, took);
            var after := Upserted(records, run, rows, now);
            && !CommitRefused(records, run, rows)
            && (key.run == run ==>
                  var slot := slots[place(key.phase)];
                  && key in after
                  && if DoneBefore(completed, slot) && key in records then after[key] == records[key]
                     else exists row :: Records(after[key], row, now)
                                        && OwnDoing(completed, slot, bodies(key.phase), took(key.phase), row))
            && (key.run != run ==>
                  (key in after <==> key in records) && (key in records ==> after[key] == records[key]))
  {
    var rows := ScanRows(completed, slots, bodies, took);
    ScanRowsDistinct(completed, slots, place, bodies, took);
    UpsertedAt(records, run, rows, now, key);
    if key.run == run {
      var i := place(key.phase);
      AbortsIs(completed, slots[i], bodies);
      SlotRowIsItsOwn(completed, slots[i], bodies, took);
      assert rows[i] == SlotRow(completed, slots[i], bodies, took);
      assert key == Key(run, rows[i].phase);
      assert Records(RecordOf(rows[i], now), rows[i], now);
    }
  }
}
