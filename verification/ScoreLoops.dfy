/** The accumulating half of the scorer: loops over the term tables that fill local totals,
    each proved equal to the per-domain sums the theorems are about. */
module ScoreLoops {
  import opened Evidence
  import opened ReadinessScore
  import opened ScoreProofs
  import opened ScoreMeaning
  import opened Wrappers

  method AddNumerator(e: Evidence, p: Path) returns (total: nat)
    ensures total == Numerator(View(e), p)
  {
    total := if p == Top(LegacyTlsCount) then Legacy(e) else Read(e, p);
    var extras := Addends(p);
    for i := 0 to |extras|
      invariant total == View(e)(p) + Sum(View(e), extras[..i])
    {
      assert extras[..i + 1][..i] == extras[..i];
      total := total + Read(e, extras[i]);
    }
    assert extras[..|extras|] == extras;
  }

  method AddIdentity(e: Evidence, keys: seq<Key>) returns (total: nat)
    ensures total == IdentitySum(View(e), keys)
  {
    total := 0;
    for i := 0 to |keys|
      invariant total == IdentitySum(View(e), keys[..i])
    {
      assert keys[..i + 1][..i] == keys[..i];
      var value := Read(e, In(ProtocolCounts, keys[i]));
      if keys[i] == Kerberos {
        value := Clamp(value - Read(e, Top(KerberosPlaceholderCount)) - Read(e, Top(KerberosScanErrorCount)));
      }
      total := total + value;
    }
    assert keys[..|keys|] == keys;
  }

  /** Whether identity was assessed: observed certificates, or identity rows. */
  method IdentityAssessed(e: Evidence) returns (assessed: bool)
    ensures assessed == Assessed(View(e), IdentityTrust)
  {
    var total := AddIdentity(e, IDENTITY_KEYS);
    assessed := Read(e, C_PATH) > 0 || total > 0;
  }

  ghost predicate AllDomains(raw: map<Domain, real>) {
    forall d: Domain :: d in raw
  }

  method AddCountTerms(c: nat -> real, e: Evidence, ts: seq<Term>) returns (raw: map<Domain, real>)
    ensures AllDomains(raw) && forall d :: raw[d] == DOMAIN_CAP + TermSum(c, Numerators(View(e)), ts, d)
  {
    raw := map[Hygiene := DOMAIN_CAP, ModernTls := DOMAIN_CAP, IdentityTrust := DOMAIN_CAP,
               AgilitySignals := DOMAIN_CAP, DataAtRest := DOMAIN_CAP, DataInMotion := DOMAIN_CAP];
    forall d: Domain ensures d in raw && raw[d] == DOMAIN_CAP {
      match d
      case Hygiene => case ModernTls => case IdentityTrust => case AgilitySignals => case DataAtRest => case DataInMotion =>
    }
    for i := 0 to |ts|
      invariant AllDomains(raw)
      invariant forall d :: raw[d] == DOMAIN_CAP + TermSum(c, Numerators(View(e)), ts[..i], d)
    {
      assert ts[..i + 1][..i] == ts[..i];
      var t := ts[i];
      var count := AddNumerator(e, t.path);
      raw := raw[t.domain := raw[t.domain] + t.sign as real * c(count) * t.weight];
    }
    assert ts[..|ts|] == ts;
  }

  method AddPresenceTerms(before: map<Domain, real>, e: Evidence, ts: seq<Term>) returns (raw: map<Domain, real>)
    requires AllDomains(before)
    requires forall i :: 0 <= i < |ts| ==> ts[i].path != Top(LegacyTlsCount)
    ensures AllDomains(raw) && forall d :: raw[d] == before[d] + PresenceSum(View(e), ts, d)
  {
    raw := before;
    for i := 0 to |ts|
      invariant AllDomains(raw)
      invariant forall d :: raw[d] == before[d] + PresenceSum(View(e), ts[..i], d)
    {
      assert ts[..i + 1][..i] == ts[..i];
      if Read(e, ts[i].path) > 0 {
        raw := raw[ts[i].domain := raw[ts[i].domain] + ts[i].sign as real * ts[i].weight];
      }
    }
    assert ts[..|ts|] == ts;
  }

  method AddScanErrors(c: nat -> real, before: map<Domain, real>, errors: nat) returns (raw: map<Domain, real>)
    requires AllDomains(before)
    ensures AllDomains(raw) && forall d :: raw[d] == before[d] - ScanErrorPenalty(c, errors, d)
  {
    raw := before;
    var curve := c(errors);
    var pending := SCAN_ERROR_WEIGHTS.Keys;
    while pending != {}
      invariant AllDomains(raw) && pending <= SCAN_ERROR_WEIGHTS.Keys
      invariant forall d :: raw[d] == before[d] - if d in pending then 0.0 else ScanErrorPenalty(c, errors, d)
      decreases pending
    {
      var d :| d in pending;
      raw := raw[d := raw[d] - curve * SCAN_ERROR_WEIGHTS[d]];
      pending := pending - {d};
    }
  }

  method AddAgility(e: Evidence, before: real) returns (after: real)
    ensures after == before + KeyTypeTerm(View(e)) + PqcCredit(View(e))
  {
    after := before;
    if Read(e, RSA_PATH) + Read(e, ECDSA_PATH) > 0 {
      after := after + KEY_TYPE_CLASSICAL;
    } else if Read(e, C_PATH) > Read(e, PQC_CERT_PATH) {
      after := after + KEY_TYPE_UNREPORTED_WITH_CERTS;
    }
    if Read(e, PQC_KEX_PATH) > 0 || Read(e, PQC_CERT_PATH) > 0 {
      after := after + PQC_HYBRID_BONUS;
    }
  }

  /** The raw value of all six domains, in one pass over each table. */
  method RawDomains(c: nat -> real, ts: seq<Term>, e: Evidence) returns (raw: map<Domain, real>)
    ensures AllDomains(raw) && forall d :: raw[d] == Raw(c, ts, View(e), d)
  {
    raw := AddCountTerms(c, e, ts);
    raw := AddPresenceTerms(raw, e, PRESENCE_TERMS);
    raw := AddScanErrors(c, raw, Read(e, SCAN_ERROR_PATH));
    var agility := AddAgility(e, raw[AgilitySignals]);
    raw := raw[AgilitySignals := agility];
  }

  method FindCeilings(e: Evidence) returns (found: seq<Ceiling>)
    ensures found == FoundCeilings(e)
  {
    var critical, high := SeverityCount(e, SevCritical), SeverityCount(e, SevHigh);
    found := [];
    if critical >= DEEP_CRITICAL_COUNT {
      found := found + [Ceiling(DEEP_CRITICAL_CEILING, Consequence, DeepCritical)];
    } else if critical >= 1 {
      found := found + [Ceiling(TOP_POOR, Consequence, Critical)];
    } else if high >= HIGH_MANY_COUNT {
      found := found + [Ceiling(TOP_FAIR, Consequence, HighMany)];
    } else if high >= 1 {
      found := found + [Ceiling(TOP_MODERATE, Consequence, High)];
    }
    if Read(e, PQC_KEX_PATH) == 0 {
      found := found + [Ceiling(TOP_GOOD, PqcReadiness, Pqc)];
    }
  }

  method ComputeScore(c: nat -> real, e: Evidence, profile: Option<string>) returns (r: Result<Report, Uncovered>)
    ensures r == ClosedForm(c, e, profile)
    ensures Answers(c, e, profile, r)
  {
    ClosedFormAnswers(c, e, profile);
    if profile != None && profile != Some("balanced") {
      return Failure(ProfileNotSpecified);
    }
    if AssessableEndpointCount !in e {
      return Failure(NoAssessableCount);
    }
    var raw := RawDomains(c, COUNT_TERMS, e);
    var identity := IdentityAssessed(e);
    var found := FindCeilings(e);
    var values := (d: Domain) => if d in raw then raw[d] else 0.0;
    var assessed := d => if d == IdentityTrust then identity else Assessed(View(e), d);
    ComposeSame(values, Raws(c, COUNT_TERMS, View(e)), assessed, Assessment(View(e)), found);
    r := Compose(values, assessed, found);
  }
}
