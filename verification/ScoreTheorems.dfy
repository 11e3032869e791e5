/** The score theorems for the table of count terms in use. */
module ScoreTheorems {
  import opened Evidence
  import opened ReadinessScore
  import opened ScoreEdits
  import opened ScoreProofs
  import opened SeverityBands
  import opened Wrappers

  lemma CountTermsAreHarmless()
    ensures forall i :: 0 <= i < |COUNT_TERMS| ==> GateFree(COUNT_TERMS[i].path)
  {
  }

  lemma CountTermsTable()
    ensures PenaltyTable(COUNT_TERMS)
  {
    CountTermsAreHarmless();
    CountTermsAreApart();
  }

  lemma CountTermsAreApart()
    ensures forall i :: 0 <= i < |COUNT_TERMS| ==> COUNT_TERMS[i].path != SCAN_ERROR_PATH && COUNT_TERMS[i].path != STARTTLS_PATH
  {
  }

  ghost predicate HasScore(c: nat -> real, e: Evidence) {
    IsCurve(c) && ClosedForm(c, e, None).Success?
  }

  function Final(c: nat -> real, e: Evidence): Report
    requires ClosedForm(c, e, None).Success?
  {
    ClosedForm(c, e, None).value
  }

  lemma {:induction false} NoneAssessed(assessed: Domain -> bool, ds: seq<Domain>)
    ensures AssessedCount(assessed, ds) == 0 <==> forall i :: 0 <= i < |ds| ==> !assessed(ds[i])
    decreases |ds|
  {
    if |ds| > 0 {
      NoneAssessed(assessed, ds[..|ds| - 1]);
    }
  }

  lemma EveryDomainListed(d: Domain)
    ensures exists i :: 0 <= i < |DOMAINS| && DOMAINS[i] == d
  {
    match d
    case Hygiene => assert DOMAINS[0] == d;
    case ModernTls => assert DOMAINS[1] == d;
    case IdentityTrust => assert DOMAINS[2] == d;
    case AgilitySignals => assert DOMAINS[3] == d;
    case DataAtRest => assert DOMAINS[4] == d;
    case DataInMotion => assert DOMAINS[5] == d;
  }

  /** Evidence is scored exactly for the balanced profile, with an assessable-endpoint count
      present and at least one domain assessed; otherwise the first of these that fails is named. */
  lemma ScoredExactlyWhen(c: nat -> real, e: Evidence, profile: Option<string>)
    ensures var r := ClosedForm(c, e, profile);
            && (r.Success? <==>
                  && (profile == None || profile == Some("balanced"))
                  && AssessableEndpointCount in e
                  && exists d: Domain :: Assessed(View(e), d))
            && (r == Failure(ProfileNotSpecified) <==> profile != None && profile != Some("balanced"))
            && (r == Failure(NoAssessableCount) <==>
                  (profile == None || profile == Some("balanced")) && AssessableEndpointCount !in e)
            && (r == Failure(ZeroDomains) <==>
                  (profile == None || profile == Some("balanced")) && AssessableEndpointCount in e
                  && forall d: Domain :: !Assessed(View(e), d))
  {
    var assessed := Assessment(View(e));
    NoneAssessed(assessed, DOMAINS);
    if d: Domain :| Assessed(View(e), d) {
      EveryDomainListed(d);
      assert assessed(d);
    }
    assert forall d: Domain :: assessed(d) == Assessed(View(e), d);
  }

  /** Raising any count behind a penalty, or the scan errors, never raises the emitted score. */
  lemma CountsNeverHelp(c: nat -> real, e: Evidence, p: Path, n: nat)
    requires HasScore(c, e) && Weakness(COUNT_TERMS, p) && n >= View(e)(p)
    ensures HasScore(c, Write(e, p, n)) && Final(c, Write(e, p, n)).emitted <= Final(c, e).emitted
  {
    CountTermsTable();
    RaisingACountNeverHelps(c, COUNT_TERMS, e, p, n);
  }

  /** Beyond 40 such a count has no effect on any part of the report. */
  lemma CountsSaturate(c: nat -> real, e: Evidence, p: Path, n: nat)
    requires IsCurve(c) && Weakness(COUNT_TERMS, p) && n >= View(e)(p)
    requires Numerator(View(e), Feeds(p)) >= N_REF
    ensures ClosedForm(c, Write(e, p, n), None) == ClosedForm(c, e, None)
  {
    CountTermsTable();
    RaisingPastTheAnchor(c, COUNT_TERMS, e, p, n);
  }

  /** More CRITICAL or HIGH findings never raise the emitted score. */
  lemma SeveritiesNeverHelp(c: nat -> real, e: Evidence, k: Key, n: nat)
    requires HasScore(c, e) && (k == SevCritical || k == SevHigh) && n >= SeverityCount(e, k)
    ensures var f := Write(e, In(SeverityTable(e), k), n);
            HasScore(c, f) && Final(c, f).emitted <= Final(c, e).emitted
  {
    CountTermsTable();
    RaisingASeverityNeverHelps(c, COUNT_TERMS, e, k, n);
  }

  /** Two evidences of which one has at least the other's weaknesses: never a higher score. */
  lemma WeakerNeverHigher(c: nat -> real, e: Evidence, f: Evidence)
    requires HasScore(c, e) && Worse(COUNT_TERMS, e, f)
    ensures HasScore(c, f) && Final(c, f).emitted <= Final(c, e).emitted && Final(c, f).computed <= Final(c, e).computed
  {
    CountTermsTable();
    WorseNeverScoresHigher(c, COUNT_TERMS, e, f);
  }

  /** Healthy endpoints never raise the emitted score while the same domains are assessed. */
  lemma HealthyNeverHelps(c: nat -> real, e: Evidence, h: Delta)
    requires HasScore(c, e) && Healthy(View(e), h)
    requires forall d :: Assessment(View(e))(d) == Assessment(View(Grow(e, h)))(d)
    ensures HasScore(c, Grow(e, h)) && Final(c, Grow(e, h)).emitted <= Final(c, e).emitted
  {
    CountTermsTable();
    HealthyEndpointsNeverHelp(c, COUNT_TERMS, e, h);
  }

  /** Reclassifying undetermined certificates as RSA or ECDSA changes nothing in the report. */
  lemma ReclassifyingIsNeutral(c: nat -> real, e: Evidence, h: Delta)
    requires HasScore(c, e) && Reclassifies(View(e), h)
    ensures ClosedForm(c, Grow(e, h), None) == ClosedForm(c, e, None)
  {
    CountTermsTable();
    ReclassifyingChangesNothing(c, COUNT_TERMS, e, h);
  }

  /** Bounds and bands of every report. */
  lemma ReportBounds(c: nat -> real, e: Evidence)
    requires HasScore(c, e)
    ensures 0 <= Final(c, e).emitted <= Final(c, e).computed <= 100
    ensures forall x :: x in FoundCeilings(e) ==> Final(c, e).emitted <= x.value
    ensures var band := BandForScore(Final(c, e).emitted);
            && (SeverityCount(e, SevCritical) >= 1 ==>
                  band == POOR && CapBandForSeverity(Known(band), SeverityCount(e, SevCritical)) == Success(band))
            && (SeverityCount(e, SevHigh) >= 3 ==> Rank(band) >= Rank(FAIR))
            && (SeverityCount(e, SevHigh) >= 1 ==> Rank(band) >= Rank(MODERATE))
            && (Read(e, PQC_KEX_PATH) == 0 ==> band != EXCELLENT)
  {
    ScoreBounds(c, COUNT_TERMS, e);
    CeilingsForceBands(c, COUNT_TERMS, e);
  }
}
