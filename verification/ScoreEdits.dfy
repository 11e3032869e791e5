/** The score theorems for concrete edits of an evidence dictionary. */
module ScoreEdits {
  import opened Evidence
  import opened ReadinessScore
  import opened ScoreProofs

  const STARTTLS_PATH: Path := Top(MotionEmailStarttlsMissingCount)
  const EMAIL_PATH: Path := Top(MotionEmailPlaintextCount)

  /** A count that feeds a penalty: a table path, the extra e-mail numerator, or the scan errors. */
  predicate Weakness(ts: seq<Term>, p: Path) {
    p == SCAN_ERROR_PATH || p == STARTTLS_PATH || exists i :: 0 <= i < |ts| && ts[i].path == p
  }

  /** The path names no gate, key-type, credit or severity cell. */
  predicate GateFree(p: Path) {
    match p
    case Top(k) =>
      k !in {AssessableEndpointCount, CertificateObservations, ProtocolCounts, ScanError, CertKeyTypeCounts,
             PqcHybridEndpointCount, MtlsPresentCount, KerberosPlaceholderCount, KerberosScanErrorCount,
             ScoredFindingSeverityCounts, FindingSeverityCounts}
    case In(t, k) =>
      || (t == CertificateObservations && k in {ExpiredCount, ExpiringCount, SelfSignedCount})
      || (t == ProtocolCounts && k == ProtoUnknown)
      || (t == ScanError && k == ScanErrorCount)
  }

  /** A table of penalties over paths of its own: no gate, scan-error or extra e-mail path. */
  ghost predicate PenaltyTable(ts: seq<Term>) {
    && Penalties(ts)
    && forall i :: 0 <= i < |ts| ==>
         GateFree(ts[i].path) && ts[i].path != SCAN_ERROR_PATH && ts[i].path != STARTTLS_PATH
  }

  lemma WeaknessesAreGateFree(ts: seq<Term>, p: Path)
    requires PenaltyTable(ts) && Weakness(ts, p)
    ensures GateFree(p)
  {
  }

  // ---------------------------------------------------------------- what the gates read

  /** The cells that decide which domains are assessed. */
  predicate AssessmentPath(q: Path) {
    || q == E_PATH || q == C_PATH || q == Top(KerberosPlaceholderCount) || q == Top(KerberosScanErrorCount)
    || (q.In? && q.table == ProtocolCounts && q.row != ProtoUnknown)
  }

  /** The cells that decide key type, credits and the PQC ceiling. */
  predicate KeyPath(q: Path) {
    q == RSA_PATH || q == ECDSA_PATH || q == PQC_CERT_PATH || q == MTLS_PATH || q == PQC_KEX_PATH || q == C_PATH
  }

  ghost predicate Agree(r: Path -> nat, s: Path -> nat, q: Path) {
    r(q) == s(q)
  }

  lemma {:induction false} SumSame(r: Path -> nat, s: Path -> nat, ps: seq<Path>)
    requires forall i :: 0 <= i < |ps| ==> Agree(r, s, ps[i])
    ensures Sum(r, ps) == Sum(s, ps)
    decreases |ps|
  {
    if |ps| > 0 {
      SumSame(r, s, ps[..|ps| - 1]);
      assert Agree(r, s, ps[|ps| - 1]);
    }
  }

  lemma {:induction false} IdentitySame(r: Path -> nat, s: Path -> nat, keys: seq<Key>)
    requires forall i :: 0 <= i < |keys| ==> Agree(r, s, In(ProtocolCounts, keys[i]))
    requires Agree(r, s, Top(KerberosPlaceholderCount)) && Agree(r, s, Top(KerberosScanErrorCount))
    ensures IdentitySum(r, keys) == IdentitySum(s, keys)
    decreases |keys|
  {
    if |keys| > 0 {
      IdentitySame(r, s, keys[..|keys| - 1]);
      assert Agree(r, s, In(ProtocolCounts, keys[|keys| - 1]));
    }
  }

  lemma RowsAssess(keys: seq<Key>)
    requires keys == DAR_KEYS || keys == MOTION_KEYS || keys == IDENTITY_KEYS
    ensures forall i :: 0 <= i < |keys| ==> AssessmentPath(In(ProtocolCounts, keys[i]))
  {
  }

  lemma ProtocolSumSame(r: Path -> nat, s: Path -> nat, keys: seq<Key>)
    requires forall i :: 0 <= i < |keys| ==> AssessmentPath(In(ProtocolCounts, keys[i]))
    requires forall q :: AssessmentPath(q) ==> Agree(r, s, q)
    ensures Sum(r, Rows(keys)) == Sum(s, Rows(keys))
  {
    SumSame(r, s, Rows(keys));
  }

  lemma AssessedSame(r: Path -> nat, s: Path -> nat, d: Domain)
    requires forall q :: AssessmentPath(q) ==> Agree(r, s, q)
    ensures Assessed(r, d) == Assessed(s, d)
  {
    assert Agree(r, s, E_PATH) && Agree(r, s, C_PATH);
    match d
    case Hygiene | ModernTls | AgilitySignals =>
    case IdentityTrust =>
      RowsAssess(IDENTITY_KEYS);
      IdentitySame(r, s, IDENTITY_KEYS);
    case DataAtRest =>
      RowsAssess(DAR_KEYS);
      ProtocolSumSame(r, s, DAR_KEYS);
    case DataInMotion =>
      RowsAssess(MOTION_KEYS);
      ProtocolSumSame(r, s, MOTION_KEYS);
  }

  lemma AgreedGates(r: Path -> nat, s: Path -> nat)
    requires forall q :: AssessmentPath(q) || KeyPath(q) ==> Agree(r, s, q)
    ensures SameGates(r, s)
  {
    assert Agree(r, s, RSA_PATH) && Agree(r, s, ECDSA_PATH) && Agree(r, s, PQC_CERT_PATH);
    assert Agree(r, s, PQC_KEX_PATH) && Agree(r, s, MTLS_PATH) && Agree(r, s, C_PATH);
    forall d ensures Assessed(r, d) == Assessed(s, d) {
      AssessedSame(r, s, d);
    }
  }

  // ---------------------------------------------------------------- raising a count

  /** The view `s` is `r` but for a rise at `p`. */
  ghost predicate RaisedAt(r: Path -> nat, s: Path -> nat, p: Path) {
    r(p) <= s(p) && forall q :: q != p && (GateFree(q) || AssessmentPath(q) || KeyPath(q)) ==> Agree(r, s, q)
  }

  lemma ViewAfter(e: Evidence, p: Path, n: nat, q: Path)
    requires GateFree(p) && (GateFree(q) || AssessmentPath(q) || KeyPath(q))
    ensures View(Write(e, p, n))(q) == if q == p then n else View(e)(q)
  {
    ReadWrite(e, p, n, q);
    RestUntouched(e, p, n);
  }

  lemma SeverityUntouched(e: Evidence, p: Path, n: nat)
    requires GateFree(p)
    ensures Severity(Write(e, p, n)) == Severity(e)
  {
  }

  lemma LegacyUntouched(e: Evidence, p: Path, n: nat)
    requires GateFree(p) && p != Top(LegacyTlsCount)
    ensures Legacy(Write(e, p, n)) == Legacy(e)
  {
    SeverityUntouched(e, p, n);
    ReadWrite(e, p, n, Top(LegacyTlsCount));
  }

  lemma RestUntouched(e: Evidence, p: Path, n: nat)
    requires GateFree(p)
    ensures Severity(Write(e, p, n)) == Severity(e)
    ensures AssessableEndpointCount in e <==> AssessableEndpointCount in Write(e, p, n)
    ensures p != Top(LegacyTlsCount) ==> Legacy(Write(e, p, n)) == Legacy(e)
  {
    SeverityUntouched(e, p, n);
    if p != Top(LegacyTlsCount) {
      LegacyUntouched(e, p, n);
    }
  }

  lemma SeveritiesUntouched(e: Evidence, p: Path, n: nat)
    requires GateFree(p)
    ensures AssessableEndpointCount in e <==> AssessableEndpointCount in Write(e, p, n)
    ensures SeverityCount(e, SevCritical) == SeverityCount(Write(e, p, n), SevCritical)
    ensures SeverityCount(e, SevHigh) == SeverityCount(Write(e, p, n), SevHigh)
  {
    RestUntouched(e, p, n);
  }

  lemma WriteRaises(e: Evidence, p: Path, n: nat)
    requires GateFree(p) && n >= View(e)(p)
    ensures RaisedAt(View(e), View(Write(e, p, n)), p)
  {
    ViewAfter(e, p, n, p);
    forall q | q != p && (GateFree(q) || AssessmentPath(q) || KeyPath(q))
      ensures Agree(View(e), View(Write(e, p, n)), q)
    {
      ViewAfter(e, p, n, q);
    }
  }

  lemma NumeratorIs(r: Path -> nat, q: Path)
    ensures Numerator(r, q) == r(q) + if q == EMAIL_PATH then r(STARTTLS_PATH) else 0
  {
    var ps := Addends(q);
    if q == EMAIL_PATH {
      assert ps[..|ps| - 1] == [];
      assert Sum(r, ps) == Sum(r, []) + r(STARTTLS_PATH);
    }
  }

  /** The numerator a weakness path feeds. */
  function Feeds(p: Path): Path {
    if p == STARTTLS_PATH then EMAIL_PATH else p
  }

  lemma NumeratorRises(r: Path -> nat, s: Path -> nat, p: Path, q: Path)
    requires GateFree(p) && GateFree(q) && RaisedAt(r, s, p)
    ensures Numerator(r, q) <= Numerator(s, q)
    ensures q != p && q != Feeds(p) ==> Numerator(r, q) == Numerator(s, q)
  {
    NumeratorIs(r, q);
    NumeratorIs(s, q);
    assert q == p || Agree(r, s, q);
    assert p == STARTTLS_PATH || Agree(r, s, STARTTLS_PATH);
  }

  lemma GatesApart(p: Path, q: Path)
    requires GateFree(p) && (AssessmentPath(q) || KeyPath(q))
    ensures q != p
  {
  }

  lemma RaisedGates(r: Path -> nat, s: Path -> nat, p: Path)
    requires GateFree(p) && RaisedAt(r, s, p)
    ensures SameGates(r, s)
  {
    forall q | AssessmentPath(q) || KeyPath(q) ensures Agree(r, s, q) {
      GatesApart(p, q);
    }
    AgreedGates(r, s);
  }

  lemma RaisedIsMore(ts: seq<Term>, r: Path -> nat, s: Path -> nat, p: Path)
    requires PenaltyTable(ts) && GateFree(p) && RaisedAt(r, s, p)
    ensures MoreWeaknesses(ts, r, s)
  {
    RaisedGates(r, s, p);
    assert p == SCAN_ERROR_PATH || Agree(r, s, SCAN_ERROR_PATH);
    forall i | 0 <= i < |ts|
      ensures Numerators(r)(ts[i].path) <= Numerators(s)(ts[i].path)
    {
      NumeratorRises(r, s, p, ts[i].path);
    }
  }

  /** Raising one weakness or scan-error count in the dictionary never raises the score. */
  lemma RaisingACountNeverHelps(c: nat -> real, ts: seq<Term>, e: Evidence, p: Path, n: nat)
    requires PenaltyTable(ts) && Scored(c, ts, e) && Weakness(ts, p) && n >= View(e)(p)
    ensures Scored(c, ts, Write(e, p, n)) && Score(c, ts, Write(e, p, n)) <= Score(c, ts, e)
  {
    WeaknessesAreGateFree(ts, p);
    RestUntouched(e, p, n);
    WriteRaises(e, p, n);
    RaisedIsMore(ts, View(e), View(Write(e, p, n)), p);
    WorseNeverScoresHigher(c, ts, e, Write(e, p, n));
  }

  lemma RaisedSaturates(ts: seq<Term>, r: Path -> nat, s: Path -> nat, p: Path)
    requires PenaltyTable(ts) && GateFree(p) && RaisedAt(r, s, p)
    requires Numerator(r, Feeds(p)) >= N_REF
    ensures Saturated(ts, r, s)
  {
    RaisedGates(r, s, p);
    assert p == SCAN_ERROR_PATH || Agree(r, s, SCAN_ERROR_PATH);
    NumeratorIs(r, SCAN_ERROR_PATH);
    forall i | 0 <= i < |ts|
      ensures SameToAnchor(Numerators(r)(ts[i].path), Numerators(s)(ts[i].path))
    {
      NumeratorRises(r, s, p, ts[i].path);
    }
  }

  /** Once the count it feeds has reached 40, raising it further changes nothing at all. */
  lemma RaisingPastTheAnchor(c: nat -> real, ts: seq<Term>, e: Evidence, p: Path, n: nat)
    requires PenaltyTable(ts) && IsCurve(c) && Weakness(ts, p) && n >= View(e)(p)
    requires Numerator(View(e), Feeds(p)) >= N_REF
    ensures ScoreWith(c, ts, Write(e, p, n)) == ScoreWith(c, ts, e)
  {
    WeaknessesAreGateFree(ts, p);
    SeveritiesUntouched(e, p, n);
    WriteRaises(e, p, n);
    RaisedSaturates(ts, View(e), View(Write(e, p, n)), p);
    PastTheAnchorNothingChanges(c, ts, e, Write(e, p, n));
  }

  // ---------------------------------------------------------------- severities

  /** The severity table the score reads. */
  function SeverityTable(e: Evidence): Key {
    if ScoredFindingSeverityCounts in e && e[ScoredFindingSeverityCounts].Table?
    then ScoredFindingSeverityCounts else FindingSeverityCounts
  }

  lemma SeverityAfter(e: Evidence, k: Key, n: nat)
    requires k != SevLow
    ensures var f := Write(e, In(SeverityTable(e), k), n);
            && Severity(f) == Severity(e)[k := n]
            && (AssessableEndpointCount in f <==> AssessableEndpointCount in e)
            && Legacy(f) == Legacy(e)
  {
  }

  lemma SeverityCountsAfter(e: Evidence, k: Key, n: nat)
    requires (k == SevCritical || k == SevHigh) && n >= SeverityCount(e, k)
    ensures var f := Write(e, In(SeverityTable(e), k), n);
            && SeverityCount(f, SevCritical) >= SeverityCount(e, SevCritical)
            && SeverityCount(f, SevHigh) >= SeverityCount(e, SevHigh)
            && (AssessableEndpointCount in f <==> AssessableEndpointCount in e)
  {
    SeverityAfter(e, k, n);
  }

  lemma SeverityApart(e: Evidence, k: Key, q: Path)
    requires GateFree(q) || AssessmentPath(q) || KeyPath(q)
    ensures q != In(SeverityTable(e), k)
  {
  }

  lemma SeverityWriteRead(e: Evidence, k: Key, n: nat, q: Path)
    requires k != SevLow && (GateFree(q) || AssessmentPath(q) || KeyPath(q))
    ensures Agree(View(e), View(Write(e, In(SeverityTable(e), k), n)), q)
  {
    SeverityAfter(e, k, n);
    SeverityApart(e, k, q);
    ReadWrite(e, In(SeverityTable(e), k), n, q);
  }

  lemma SeverityWriteRaises(e: Evidence, k: Key, n: nat)
    requires k != SevLow
    ensures RaisedAt(View(e), View(Write(e, In(SeverityTable(e), k), n)), SCAN_ERROR_PATH)
  {
    SeverityWriteRead(e, k, n, SCAN_ERROR_PATH);
    forall q | GateFree(q) || AssessmentPath(q) || KeyPath(q)
      ensures Agree(View(e), View(Write(e, In(SeverityTable(e), k), n)), q)
    {
      SeverityWriteRead(e, k, n, q);
    }
  }

  /** More CRITICAL or HIGH findings never raise the score. */
  lemma RaisingASeverityNeverHelps(c: nat -> real, ts: seq<Term>, e: Evidence, k: Key, n: nat)
    requires PenaltyTable(ts) && Scored(c, ts, e) && (k == SevCritical || k == SevHigh) && n >= SeverityCount(e, k)
    ensures var f := Write(e, In(SeverityTable(e), k), n); Scored(c, ts, f) && Score(c, ts, f) <= Score(c, ts, e)
  {
    var f := Write(e, In(SeverityTable(e), k), n);
    SeverityCountsAfter(e, k, n);
    SeverityWriteRaises(e, k, n);
    RaisedIsMore(ts, View(e), View(f), SCAN_ERROR_PATH);
    WorseNeverScoresHigher(c, ts, e, f);
  }

  // ---------------------------------------------------------------- healthy endpoints

  /** Rows added to the population counts. */
  datatype Delta = Delta(endpoints: nat, certs: nat, rsa: nat, ecdsa: nat, mtls: nat)

  predicate Population(p: Path) {
    p == E_PATH || p == C_PATH || p == RSA_PATH || p == ECDSA_PATH || p == MTLS_PATH
  }

  function Bump(e: Evidence, p: Path, n: nat): Evidence {
    Write(e, p, View(e)(p) + n)
  }

  function Grow(e: Evidence, h: Delta): Evidence {
    Bump(Bump(Bump(Bump(Bump(e, E_PATH, h.endpoints), C_PATH, h.certs), RSA_PATH, h.rsa), ECDSA_PATH, h.ecdsa),
         MTLS_PATH, h.mtls)
  }

  function Added(h: Delta, q: Path): nat {
    if q == E_PATH then h.endpoints else if q == C_PATH then h.certs else if q == RSA_PATH then h.rsa
    else if q == ECDSA_PATH then h.ecdsa else if q == MTLS_PATH then h.mtls else 0
  }

  /** `s` is `r` with the new rows counted in. */
  ghost predicate GrownBy(r: Path -> nat, s: Path -> nat, h: Delta) {
    forall q :: GateFree(q) || AssessmentPath(q) || KeyPath(q) ==> s(q) == r(q) + Added(h, q)
  }

  lemma BumpApart(p: Path, q: Path)
    requires Population(p) && (GateFree(q) || AssessmentPath(q) || KeyPath(q))
    ensures q == p || Apart(p, q)
  {
  }

  lemma BumpRest(e: Evidence, p: Path, n: nat)
    requires Population(p)
    ensures Severity(Bump(e, p, n)) == Severity(e)
    ensures Legacy(Bump(e, p, n)) == Legacy(e)
    ensures p == E_PATH || AssessableEndpointCount in e ==> AssessableEndpointCount in Bump(e, p, n)
  {
  }

  lemma ViewReads(e: Evidence, q: Path)
    ensures View(e)(q) == if q == Top(LegacyTlsCount) then Legacy(e) else Read(e, q)
  {
  }

  lemma BumpView(e: Evidence, p: Path, n: nat, q: Path)
    requires p != Top(LegacyTlsCount) && (q == p || Apart(p, q)) && Legacy(Bump(e, p, n)) == Legacy(e)
    ensures View(Bump(e, p, n))(q) == View(e)(q) + if q == p then n else 0
  {
    var more := View(e)(p) + n;
    ViewReads(e, q);
    ViewReads(Write(e, p, more), q);
    if q != Top(LegacyTlsCount) {
      ReadWrite(e, p, more, q);
    }
  }

  lemma PopulationApart(q: Path)
    requires GateFree(q) || AssessmentPath(q) || KeyPath(q)
    ensures forall p :: Population(p) ==> q == p || Apart(p, q)
  {
    forall p | Population(p) ensures q == p || Apart(p, q) {
      BumpApart(p, q);
    }
  }

  lemma GrowView(e: Evidence, h: Delta)
    ensures GrownBy(View(e), View(Grow(e, h)), h)
    ensures Severity(Grow(e, h)) == Severity(e)
    ensures AssessableEndpointCount in Grow(e, h)
  {
    var e1 := Bump(e, E_PATH, h.endpoints);
    var e2 := Bump(e1, C_PATH, h.certs);
    var e3 := Bump(e2, RSA_PATH, h.rsa);
    var e4 := Bump(e3, ECDSA_PATH, h.ecdsa);
    BumpRest(e, E_PATH, h.endpoints);
    BumpRest(e1, C_PATH, h.certs);
    BumpRest(e2, RSA_PATH, h.rsa);
    BumpRest(e3, ECDSA_PATH, h.ecdsa);
    BumpRest(e4, MTLS_PATH, h.mtls);
    forall q | GateFree(q) || AssessmentPath(q) || KeyPath(q)
      ensures View(Grow(e, h))(q) == View(e)(q) + Added(h, q)
    {
      PopulationApart(q);
      BumpView(e, E_PATH, h.endpoints, q);
      BumpView(e1, C_PATH, h.certs, q);
      BumpView(e2, RSA_PATH, h.rsa, q);
      BumpView(e3, ECDSA_PATH, h.ecdsa, q);
      BumpView(e4, MTLS_PATH, h.mtls, q);
    }
  }

  /** The new rows bring no first mTLS observation, and every certificate is RSA or ECDSA. */
  predicate Healthy(r: Path -> nat, h: Delta) {
    h.certs == h.rsa + h.ecdsa && (h.mtls > 0 ==> r(MTLS_PATH) > 0)
  }

  /** The new key-type rows are observed certificates whose key was undetermined. */
  predicate Reclassifies(r: Path -> nat, h: Delta) {
    && h.endpoints == 0 && h.certs == 0 && h.mtls == 0
    && r(C_PATH) >= r(RSA_PATH) + r(ECDSA_PATH) + r(PQC_CERT_PATH) + h.rsa + h.ecdsa
  }

  lemma GrownAtKeys(r: Path -> nat, s: Path -> nat, h: Delta)
    requires GrownBy(r, s, h)
    ensures s(RSA_PATH) == r(RSA_PATH) + h.rsa && s(ECDSA_PATH) == r(ECDSA_PATH) + h.ecdsa
    ensures s(C_PATH) == r(C_PATH) + h.certs && s(MTLS_PATH) == r(MTLS_PATH) + h.mtls
    ensures s(PQC_CERT_PATH) == r(PQC_CERT_PATH) && s(PQC_KEX_PATH) == r(PQC_KEX_PATH)
  {
    assert KeyPath(RSA_PATH) && KeyPath(ECDSA_PATH) && KeyPath(PQC_CERT_PATH) && KeyPath(C_PATH);
    assert KeyPath(PQC_KEX_PATH) && KeyPath(MTLS_PATH);
  }

  lemma GrownKeys(r: Path -> nat, s: Path -> nat, h: Delta)
    requires GrownBy(r, s, h)
    ensures Healthy(r, h) ==> KeyTypeTerm(s) <= KeyTypeTerm(r)
    ensures Reclassifies(r, h) ==> KeyTypeTerm(s) == KeyTypeTerm(r)
    ensures PqcCredit(s) == PqcCredit(r) && s(PQC_KEX_PATH) == r(PQC_KEX_PATH)
    ensures Healthy(r, h) || Reclassifies(r, h) ==> (s(MTLS_PATH) > 0 <==> r(MTLS_PATH) > 0)
  {
    GrownAtKeys(r, s, h);
  }

  lemma GrownNumerator(ts: seq<Term>, r: Path -> nat, s: Path -> nat, h: Delta, i: nat)
    requires PenaltyTable(ts) && GrownBy(r, s, h) && i < |ts|
    ensures Numerator(r, ts[i].path) == Numerator(s, ts[i].path)
  {
    var q := ts[i].path;
    NumeratorIs(r, q);
    NumeratorIs(s, q);
    assert GateFree(STARTTLS_PATH);
  }

  lemma GrownNumerators(ts: seq<Term>, r: Path -> nat, s: Path -> nat, h: Delta)
    requires PenaltyTable(ts) && GrownBy(r, s, h)
    ensures AllToAnchor(Numerators(r), Numerators(s), ts)
  {
    forall i | 0 <= i < |ts| ensures SameToAnchor(Numerators(r)(ts[i].path), Numerators(s)(ts[i].path)) {
      GrownNumerator(ts, r, s, h, i);
    }
  }

  lemma GrownPenalties(c: nat -> real, ts: seq<Term>, r: Path -> nat, s: Path -> nat, h: Delta, d: Domain)
    requires PenaltyTable(ts) && IsCurve(c) && GrownBy(r, s, h)
    ensures TermSum(c, Numerators(r), ts, d) == TermSum(c, Numerators(s), ts, d)
    ensures r(SCAN_ERROR_PATH) == s(SCAN_ERROR_PATH)
  {
    assert GateFree(SCAN_ERROR_PATH);
    GrownNumerators(ts, r, s, h);
    TermSumFlat(c, Numerators(r), Numerators(s), ts, d);
  }

  lemma GrownRaw(c: nat -> real, ts: seq<Term>, r: Path -> nat, s: Path -> nat, h: Delta, d: Domain)
    requires PenaltyTable(ts) && IsCurve(c) && GrownBy(r, s, h) && (Healthy(r, h) || Reclassifies(r, h))
    ensures Healthy(r, h) ==> Raw(c, ts, s, d) <= Raw(c, ts, r, d)
    ensures Reclassifies(r, h) ==> Raw(c, ts, s, d) == Raw(c, ts, r, d)
  {
    GrownPenalties(c, ts, r, s, h, d);
    GrownKeys(r, s, h);
    PresenceSame(r, s, d);
  }

  /** Any number of healthy endpoints (certless, RSA or ECDSA, mTLS once one is known) never
      raises the score while the same domains are assessed. */
  lemma HealthyEndpointsNeverHelp(c: nat -> real, ts: seq<Term>, e: Evidence, h: Delta)
    requires PenaltyTable(ts) && Scored(c, ts, e) && Healthy(View(e), h)
    requires forall d :: Assessment(View(e))(d) == Assessment(View(Grow(e, h)))(d)
    ensures Scored(c, ts, Grow(e, h)) && Score(c, ts, Grow(e, h)) <= Score(c, ts, e)
  {
    var f := Grow(e, h);
    GrowView(e, h);
    forall d ensures Raws(c, ts, View(f))(d) <= Raws(c, ts, View(e))(d) {
      GrownRaw(c, ts, View(e), View(f), h, d);
    }
    GrownKeys(View(e), View(f), h);
    SqueezedLower(c, ts, e, f);
  }

  lemma ReclassifiedAssessed(r: Path -> nat, s: Path -> nat, h: Delta, d: Domain)
    requires GrownBy(r, s, h) && Reclassifies(r, h)
    ensures Assessed(r, d) == Assessed(s, d)
  {
    forall q | AssessmentPath(q) ensures Agree(r, s, q) {
    }
    AssessedSame(r, s, d);
  }

  /** Learning that undetermined certificates are RSA or ECDSA leaves the report exactly equal. */
  lemma ReclassifyingChangesNothing(c: nat -> real, ts: seq<Term>, e: Evidence, h: Delta)
    requires PenaltyTable(ts) && Scored(c, ts, e) && Reclassifies(View(e), h)
    ensures ScoreWith(c, ts, Grow(e, h)) == ScoreWith(c, ts, e)
  {
    var r, s := View(e), View(Grow(e, h));
    GrowView(e, h);
    forall d ensures Raws(c, ts, r)(d) == Raws(c, ts, s)(d) && Assessment(r)(d) == Assessment(s)(d) {
      GrownRaw(c, ts, r, s, h, d);
      ReclassifiedAssessed(r, s, h, d);
    }
    GrownKeys(r, s, h);
    ComposeSame(Raws(c, ts, r), Raws(c, ts, s), Assessment(r), Assessment(s), FoundCeilings(e));
  }
}
