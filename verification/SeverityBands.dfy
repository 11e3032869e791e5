/** Readiness bands: the score thresholds and the per-band CRITICAL allowance. */
module SeverityBands {
  import opened Wrappers

  datatype Band = EXCELLENT | GOOD | MODERATE | FAIR | POOR

  /** A label as a caller may pass it: one of the five, or something else. */
  datatype Label = Known(band: Band) | Unlisted(text: string)

  const BAND_ORDER: seq<Band> := [EXCELLENT, GOOD, MODERATE, FAIR, POOR]

  const BAND_THRESHOLDS: map<Band, int> := map[EXCELLENT := 85, GOOD := 70, MODERATE := 55, FAIR := 35]

  const BAND_CRITICAL_ALLOWANCE: map<Band, Option<int>> :=
    map[EXCELLENT := Some(0), GOOD := Some(0), MODERATE := Some(0), FAIR := None, POOR := None]

  /** Position in `BAND_ORDER`: 0 is the most favourable. */
  function Rank(b: Band): (i: nat)
    ensures i < |BAND_ORDER| && BAND_ORDER[i] == b
  {
    match b
    case EXCELLENT => 0
    case GOOD => 1
    case MODERATE => 2
    case FAIR => 3
    case POOR => 4
  }

  function BandForScore(score: int): Band {
    if score >= BAND_THRESHOLDS[EXCELLENT] then EXCELLENT
    else if score >= BAND_THRESHOLDS[GOOD] then GOOD
    else if score >= BAND_THRESHOLDS[MODERATE] then MODERATE
    else if score >= BAND_THRESHOLDS[FAIR] then FAIR
    else POOR
  }

  predicate Admits(b: Band, criticals: int) {
    b in BAND_CRITICAL_ALLOWANCE && BAND_CRITICAL_ALLOWANCE[b].Some? ==>
      criticals <= BAND_CRITICAL_ALLOWANCE[b].value
  }

  /** First band from position `i` on that admits the count; the last band if none does. */
  function FirstAdmitting(i: nat, criticals: int): (b: Band)
    requires i <= |BAND_ORDER|
    decreases |BAND_ORDER| - i
  {
    if i == |BAND_ORDER| then BAND_ORDER[|BAND_ORDER| - 1]
    else if Admits(BAND_ORDER[i], criticals) then BAND_ORDER[i]
    else FirstAdmitting(i + 1, criticals)
  }

  function CapBandForSeverity(given: Label, criticals: int): Result<Band, string> {
    match given
    case Unlisted(_) => Failure("numeric_band not in BAND_ORDER")
    case Known(band) =>
      if criticals <= 0 then Success(band) else Success(FirstAdmitting(Rank(band), criticals))
  }

  /** The search as the loop runs it. */
  method CapByScan(given: Label, criticals: int) returns (r: Result<Band, string>)
    ensures r == CapBandForSeverity(given, criticals)
  {
    if given.Unlisted? {
      return Failure("numeric_band not in BAND_ORDER");
    }
    if criticals <= 0 {
      return Success(given.band);
    }
    for i := Rank(given.band) to |BAND_ORDER|
      invariant FirstAdmitting(Rank(given.band), criticals) == FirstAdmitting(i, criticals)
    {
      if Admits(BAND_ORDER[i], criticals) {
        return Success(BAND_ORDER[i]);
      }
    }
    return Success(BAND_ORDER[|BAND_ORDER| - 1]);
  }

  /** The cap is the most favourable band that is no better than the numeric one and admits
      the open CRITICAL findings; a label outside the table is rejected whatever the count. */
  lemma CapIsLeastDestructive(given: Label, criticals: int)
    ensures given.Unlisted? <==> CapBandForSeverity(given, criticals).Failure?
    ensures given.Known? ==>
              var capped := CapBandForSeverity(given, criticals).value;
              && Rank(given.band) <= Rank(capped)
              && Admits(capped, criticals)
              && forall b :: Rank(given.band) <= Rank(b) && Admits(b, criticals) ==> Rank(capped) <= Rank(b)
  {
    if given.Known? {
      var capped := CapBandForSeverity(given, criticals).value;
      if criticals > 0 {
        assert FirstAdmitting(5, criticals) == POOR && FirstAdmitting(4, criticals) == POOR;
        assert FirstAdmitting(3, criticals) == FAIR;
        assert FirstAdmitting(2, criticals) == FAIR;
        assert FirstAdmitting(1, criticals) == FAIR;
        assert FirstAdmitting(0, criticals) == FAIR;
      }
      forall b | Rank(given.band) <= Rank(b) && Admits(b, criticals) ensures Rank(capped) <= Rank(b) {
        match b
        case EXCELLENT => case GOOD => case MODERATE => case FAIR => case POOR =>
      }
    }
  }

  /** A higher score never gets a less favourable band. */
  lemma BandsFollowScores(a: int, b: int)
    requires a <= b
    ensures Rank(BandForScore(b)) <= Rank(BandForScore(a))
  {
  }

  /** Where the bands lie, and which of them an open CRITICAL finding leaves. */
  lemma BandsAre(score: int, band: Band, criticals: int)
    ensures BandForScore(score) == EXCELLENT <==> score >= 85
    ensures BandForScore(score) == GOOD <==> 70 <= score < 85
    ensures BandForScore(score) == MODERATE <==> 55 <= score < 70
    ensures BandForScore(score) == FAIR <==> 35 <= score < 55
    ensures BandForScore(score) == POOR <==> score < 35
    ensures CapBandForSeverity(Known(band), criticals) ==
            Success(if criticals > 0 && band in {EXCELLENT, GOOD, MODERATE} then FAIR else band)
  {
    if criticals > 0 {
      CapIsLeastDestructive(Known(band), criticals);
      var capped := CapBandForSeverity(Known(band), criticals).value;
      assert Admits(FAIR, criticals) && Admits(POOR, criticals) && !Admits(MODERATE, criticals);
      assert !Admits(GOOD, criticals) && !Admits(EXCELLENT, criticals);
      assert Rank(FAIR) == 3 && Rank(POOR) == 4;
      match capped
      case EXCELLENT => case GOOD => case MODERATE => case FAIR => case POOR =>
    }
  }
}
