/** The readiness score: penalties on a square-root curve, six clamped domains, the average
    of the assessed ones, and a linear squeeze by the lowest ceiling. Arithmetic is over the
    reals with an exact round half to even. */
module ReadinessScore {
  import opened Evidence
  import opened Wrappers

  datatype Domain = Hygiene | ModernTls | IdentityTrust | AgilitySignals | DataAtRest | DataInMotion

  const DOMAINS: seq<Domain> := [Hygiene, ModernTls, IdentityTrust, AgilitySignals, DataAtRest, DataInMotion]

  const DOMAIN_CAP: real := 25.0
  const N_REF: nat := 40
  const TOP_GOOD: nat := 84
  const TOP_MODERATE: nat := 69
  const TOP_FAIR: nat := 54
  const TOP_POOR: nat := 34
  const DEEP_CRITICAL_COUNT: nat := 5
  const DEEP_CRITICAL_CEILING: nat := 25
  const HIGH_MANY_COUNT: nat := 3
  const KEY_TYPE_CLASSICAL: real := -8.0
  const KEY_TYPE_UNREPORTED_WITH_CERTS: real := -8.0
  const PQC_HYBRID_BONUS: real := 8.0

  datatype Term = Term(domain: Domain, path: Path, weight: real, sign: int)

  const COUNT_TERMS: seq<Term> := [
    Term(Hygiene, Top(PlaintextHttpCount), 18.0, -1),
    Term(Hygiene, Top(HttpOnTlsPortCount), 16.0, -1),
    Term(ModernTls, Top(LegacyTlsCount), 14.0, -1),
    Term(ModernTls, In(ProtocolCounts, ProtoUnknown), 6.0, -1),
    Term(IdentityTrust, In(CertificateObservations, ExpiredCount), 14.0, -1),
    Term(IdentityTrust, In(CertificateObservations, ExpiringCount), 7.0, -1),
    Term(IdentityTrust, In(CertificateObservations, SelfSignedCount), 9.0, -1),
    Term(IdentityTrust, Top(IdentityWeakEtypeCount), 10.0, -1),
    Term(IdentityTrust, Top(SamlWeakSigningCount), 8.0, -1),
    Term(IdentityTrust, Top(DnssecWeakAlgoCount), 8.0, -1),
    Term(IdentityTrust, Top(SmimeWeakSigningCount), 2.0, -1),
    Term(IdentityTrust, Top(SmimeExpiredCount), 2.0, -1),
    Term(IdentityTrust, Top(SmimeWeakKeyCount), 2.0, -1),
    Term(IdentityTrust, Top(AdcsWeakTemplateCount), 2.0, -1),
    Term(IdentityTrust, Top(AdcsMisconfigCount), 2.0, -1),
    Term(IdentityTrust, Top(AdcsWeakSigningCount), 2.0, -1),
    Term(IdentityTrust, Top(AdcsCoverageGapCount), 2.0, -1),
    Term(AgilitySignals, In(ProtocolCounts, ProtoUnknown), 6.0, -1),
    Term(AgilitySignals, Top(BearerTokenWeakAlgCount), 6.0, -1),
    Term(AgilitySignals, Top(OpenapiPlaintextServerCount), 4.0, -1),
    Term(AgilitySignals, Top(CodesignWeakAlgoCount), 6.0, -1),
    Term(AgilitySignals, Top(FuzzFindingCount), 4.0, -1),
    Term(DataAtRest, Top(DarDbPlaintextCount), 12.0, -1),
    Term(DataAtRest, Top(DarDbWeakSslCount), 6.0, -1),
    Term(DataAtRest, Top(DarStorageUnencryptedCount), 12.0, -1),
    Term(DataAtRest, Top(DarStorageAwsManagedCount), 4.0, -1),
    Term(DataAtRest, Top(DarK8sUnencryptedCount), 10.0, -1),
    Term(DataAtRest, Top(DarK8sInaccessibleCount), 4.0, -1),
    Term(DataAtRest, Top(DarVaultWeakCount), 8.0, -1),
    Term(DataInMotion, Top(MotionEmailPlaintextCount), 12.0, -1),
    Term(DataInMotion, Top(MotionEmailWeakCipherCount), 6.0, -1),
    Term(DataInMotion, Top(MotionBrokerPlaintextCount), 14.0, -1),
    Term(DataInMotion, Top(MotionBrokerWeakTlsCount), 8.0, -1),
    Term(DataInMotion, Top(MotionBrokerWeakCipherCount), 6.0, -1)
  ]

  const PRESENCE_TERMS: seq<Term> := [Term(IdentityTrust, Top(MtlsPresentCount), 6.0, 1)]

  const SCAN_ERROR_WEIGHTS: map<Domain, real> := map[Hygiene := 6.0, ModernTls := 5.0]

  const IDENTITY_KEYS: seq<Key> := [Kerberos, Saml, Dnssec, Smime, Adcs]
  const DAR_KEYS: seq<Key> := [Postgresql, Mysql, Rds, S3, AzureBlob, Kubernetes, Vault]
  const MOTION_KEYS: seq<Key> := [
    SmtpStarttls, Smtps, Imaps, ImapStarttls, Pop3s, Pop3Starttls, KafkaPlain, KafkaTls,
    AmqpPlain, Amqps, AmqpsAzureServicebus, HttpsAwsSqs, RedisPlain, RedisTls]

  // ---------------------------------------------------------------- readers

  function Severity(e: Evidence): map<Key, int> {
    if ScoredFindingSeverityCounts in e && e[ScoredFindingSeverityCounts].Table? then e[ScoredFindingSeverityCounts].rows
    else if FindingSeverityCounts in e && e[FindingSeverityCounts].Table? then e[FindingSeverityCounts].rows
    else map[]
  }

  function SeverityCount(e: Evidence, k: Key): nat {
    if k in Severity(e) then Clamp(Severity(e)[k]) else 0
  }

  /** The legacy TLS count when there is one, else the LOW findings. */
  function Legacy(e: Evidence): nat {
    if LegacyTlsCount in e && e[LegacyTlsCount] != Null then Read(e, Top(LegacyTlsCount))
    else SeverityCount(e, SevLow)
  }

  /** What the score reads at a path: the count, with the LOW fallback for legacy TLS. */
  function View(e: Evidence): Path -> nat {
    p => if p == Top(LegacyTlsCount) then Legacy(e) else Read(e, p)
  }

  function Addends(p: Path): seq<Path> {
    if p == Top(MotionEmailPlaintextCount) then [Top(MotionEmailStarttlsMissingCount)] else []
  }

  function Sum(r: Path -> nat, ps: seq<Path>): nat
    decreases |ps|
  {
    if |ps| == 0 then 0 else Sum(r, ps[..|ps| - 1]) + r(ps[|ps| - 1])
  }

  function Numerator(r: Path -> nat, p: Path): nat {
    r(p) + Sum(r, Addends(p))
  }

  function Rows(keys: seq<Key>): seq<Path> {
    seq(|keys|, i requires 0 <= i < |keys| => In(ProtocolCounts, keys[i]))
  }

  /** A key's share of the identity sum: Kerberos rows that are placeholders or carry a scan
      error are no identity evidence. */
  function IdentityShare(r: Path -> nat, k: Key): nat {
    var seen := r(In(ProtocolCounts, k));
    if k == Kerberos then Clamp(seen - r(Top(KerberosPlaceholderCount)) - r(Top(KerberosScanErrorCount))) else seen
  }

  function IdentitySum(r: Path -> nat, keys: seq<Key>): nat
    decreases |keys|
  {
    if |keys| == 0 then 0 else IdentitySum(r, keys[..|keys| - 1]) + IdentityShare(r, keys[|keys| - 1])
  }

  const E_PATH: Path := Top(AssessableEndpointCount)
  const C_PATH: Path := In(CertificateObservations, CertsObserved)
  const RSA_PATH: Path := In(CertKeyTypeCounts, KeyRsa)
  const ECDSA_PATH: Path := In(CertKeyTypeCounts, KeyEcdsa)
  const PQC_CERT_PATH: Path := In(CertKeyTypeCounts, KeyPqc)
  const PQC_KEX_PATH: Path := Top(PqcHybridEndpointCount)
  const MTLS_PATH: Path := Top(MtlsPresentCount)
  const SCAN_ERROR_PATH: Path := In(ScanError, ScanErrorCount)

  // ---------------------------------------------------------------- domains

  /** The curve: non-negative, with `c(n)^2 == min(n, 40) / 40`. */
  ghost predicate IsCurve(c: nat -> real) {
    forall n :: c(n) >= 0.0 && c(n) * c(n) * 40.0 == (if n < 40 then n else 40) as real
  }

  function Contribution(c: nat -> real, t: Term, n: nat): real {
    t.sign as real * c(n) * t.weight
  }

  function TermSum(c: nat -> real, counts: Path -> nat, terms: seq<Term>, d: Domain): real
    decreases |terms|
  {
    if |terms| == 0 then 0.0
    else
      var t := terms[|terms| - 1];
      TermSum(c, counts, terms[..|terms| - 1], d)
      + if t.domain == d then Contribution(c, t, counts(t.path)) else 0.0
  }

  function PresenceSum(r: Path -> nat, terms: seq<Term>, d: Domain): real
    decreases |terms|
  {
    if |terms| == 0 then 0.0
    else
      var t := terms[|terms| - 1];
      PresenceSum(r, terms[..|terms| - 1], d)
      + if t.domain == d && r(t.path) > 0 then t.sign as real * t.weight else 0.0
  }

  function Numerators(r: Path -> nat): Path -> nat {
    p => Numerator(r, p)
  }

  function ScanErrorPenalty(c: nat -> real, errors: nat, d: Domain): real {
    if d in SCAN_ERROR_WEIGHTS then c(errors) * SCAN_ERROR_WEIGHTS[d] else 0.0
  }

  /** Classical or undetermined certificate keys cost agility a flat 8. */
  function KeyTypeTerm(r: Path -> nat): real {
    if r(RSA_PATH) + r(ECDSA_PATH) > 0 then KEY_TYPE_CLASSICAL
    else if r(C_PATH) > r(PQC_CERT_PATH) then KEY_TYPE_UNREPORTED_WITH_CERTS
    else 0.0
  }

  function PqcCredit(r: Path -> nat): real {
    if r(PQC_KEX_PATH) > 0 || r(PQC_CERT_PATH) > 0 then PQC_HYBRID_BONUS else 0.0
  }

  /** A domain's raw value: the cap and every term that names the domain. */
  function Raw(c: nat -> real, ts: seq<Term>, r: Path -> nat, d: Domain): real {
    DOMAIN_CAP + TermSum(c, Numerators(r), ts, d) + PresenceSum(r, PRESENCE_TERMS, d)
    - ScanErrorPenalty(c, r(SCAN_ERROR_PATH), d)
    + if d == AgilitySignals then KeyTypeTerm(r) + PqcCredit(r) else 0.0
  }

  function RoundHalfEven(x: real): int {
    var low := x.Floor;
    var rest := x - low as real;
    if rest < 0.5 || (rest == 0.5 && low % 2 == 0) then low else low + 1
  }

  function Subscore(raw: real): int {
    RoundHalfEven(if raw < 0.0 then 0.0 else if raw > DOMAIN_CAP then DOMAIN_CAP else raw)
  }

  function Assessed(r: Path -> nat, d: Domain): bool {
    match d
    case Hygiene | ModernTls | AgilitySignals => r(E_PATH) > 0
    case IdentityTrust => r(C_PATH) > 0 || IdentitySum(r, IDENTITY_KEYS) > 0
    case DataAtRest => Sum(r, Rows(DAR_KEYS)) > 0
    case DataInMotion => Sum(r, Rows(MOTION_KEYS)) > 0
  }

  function AssessedCount(assessed: Domain -> bool, ds: seq<Domain>): nat
    decreases |ds|
  {
    if |ds| == 0 then 0
    else AssessedCount(assessed, ds[..|ds| - 1]) + if assessed(ds[|ds| - 1]) then 1 else 0
  }

  function AssessedTotal(assessed: Domain -> bool, raw: Domain -> real, ds: seq<Domain>): int
    decreases |ds|
  {
    if |ds| == 0 then 0
    else AssessedTotal(assessed, raw, ds[..|ds| - 1])
         + if assessed(ds[|ds| - 1]) then Subscore(raw(ds[|ds| - 1])) else 0
  }

  function Average(total: int, n: nat): int
    requires n > 0
  {
    RoundHalfEven(total as real / (n as real * DOMAIN_CAP) * 100.0)
  }

  // ---------------------------------------------------------------- ceilings

  datatype Source = Consequence | PqcReadiness
  datatype Rule = DeepCritical | Critical | HighMany | High | Pqc
  datatype Ceiling = Ceiling(value: nat, source: Source, rule: Rule)

  function ConsequenceCeiling(critical: nat, high: nat): seq<Ceiling> {
    if critical >= DEEP_CRITICAL_COUNT then [Ceiling(DEEP_CRITICAL_CEILING, Consequence, DeepCritical)]
    else if critical >= 1 then [Ceiling(TOP_POOR, Consequence, Critical)]
    else if high >= HIGH_MANY_COUNT then [Ceiling(TOP_FAIR, Consequence, HighMany)]
    else if high >= 1 then [Ceiling(TOP_MODERATE, Consequence, High)]
    else []
  }

  /** Every applicable ceiling, in the order found. */
  function Ceilings(r: Path -> nat, critical: nat, high: nat): seq<Ceiling> {
    ConsequenceCeiling(critical, high)
    + if r(PQC_KEX_PATH) == 0 then [Ceiling(TOP_GOOD, PqcReadiness, Pqc)] else []
  }

  /** Order of the winner: by value, then by source name. */
  predicate Before(a: Ceiling, b: Ceiling) {
    a.value < b.value || (a.value == b.value && (a.source.Consequence? || b.source.PqcReadiness?))
  }

  function Insert(x: Ceiling, sorted: seq<Ceiling>): seq<Ceiling>
    decreases |sorted|
  {
    if |sorted| == 0 then [x]
    else if Before(sorted[0], x) then [sorted[0]] + Insert(x, sorted[1..])
    else [x] + sorted
  }

  /** Stable sort: later elements go after equal earlier ones. */
  function Sorted(cs: seq<Ceiling>): seq<Ceiling>
    decreases |cs|
  {
    if |cs| == 0 then [] else Insert(cs[|cs| - 1], Sorted(cs[..|cs| - 1]))
  }

  function Squeeze(ceiling: nat, computed: int): int {
    RoundHalfEven((ceiling * computed) as real / 100.0)
  }

  // ---------------------------------------------------------------- the score

  datatype Uncovered = ProfileNotSpecified | NoAssessableCount | ZeroDomains

  datatype Report = Report(
    emitted: int, computed: int, ceilings: seq<Ceiling>, subscores: map<Domain, int>, assessed: nat)

  function Emitted(sorted: seq<Ceiling>, computed: int): int {
    if |sorted| == 0 then computed else Squeeze(sorted[0].value, computed)
  }

  function AssessedSubscores(raw: Domain -> real, assessed: Domain -> bool): map<Domain, int> {
    map d | d in DOMAINS && assessed(d) :: Subscore(raw(d))
  }

  /** From raw domain values, the assessed domains and the applicable ceilings to the report;
      `ceilings` lists the winner first, then the losers. */
  function Compose(raw: Domain -> real, assessed: Domain -> bool, found: seq<Ceiling>): Result<Report, Uncovered> {
    var n := AssessedCount(assessed, DOMAINS);
    if n == 0 then Failure(ZeroDomains)
    else
      var computed := Average(AssessedTotal(assessed, raw, DOMAINS), n);
      var cs := Sorted(found);
      Success(Report(Emitted(cs, computed), computed, cs, AssessedSubscores(raw, assessed), n))
  }

  function Raws(c: nat -> real, ts: seq<Term>, r: Path -> nat): Domain -> real {
    d => Raw(c, ts, r, d)
  }

  function Assessment(r: Path -> nat): Domain -> bool {
    d => Assessed(r, d)
  }

  function FoundCeilings(e: Evidence): seq<Ceiling> {
    Ceilings(View(e), SeverityCount(e, SevCritical), SeverityCount(e, SevHigh))
  }

  /** The score under a given table of count terms. */
  function ScoreWith(c: nat -> real, ts: seq<Term>, e: Evidence): Result<Report, Uncovered> {
    if AssessableEndpointCount !in e then Failure(NoAssessableCount)
    else Compose(Raws(c, ts, View(e)), Assessment(View(e)), FoundCeilings(e))
  }

  /** The score of an evidence dictionary. */
  function ClosedForm(c: nat -> real, e: Evidence, profile: Option<string>): Result<Report, Uncovered> {
    if profile != None && profile != Some("balanced") then Failure(ProfileNotSpecified)
    else ScoreWith(c, COUNT_TERMS, e)
  }
}
