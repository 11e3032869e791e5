/** What a report says, domain by domain and read off the evidence, without the tables and sums it is
    computed from. */
module ScoreMeaning {
  import opened Evidence
  import opened ReadinessScore
  import opened ScoreProofs
  import opened Wrappers

  // ---------------------------------------------------------------- the evidence, read directly

  ghost function AtLeastZero(n: int): nat {
    if n > 0 then n else 0
  }

  /** A count of the dictionary itself. */
  ghost function Plain(e: Evidence, k: Key): nat {
    if k in e && e[k].Count? then AtLeastZero(e[k].n) else 0
  }

  /** A count in one of its tables. */
  ghost function Cell(e: Evidence, t: Key, k: Key): nat {
    if t in e && e[t].Table? && k in e[t].rows then AtLeastZero(e[t].rows[k]) else 0
  }

  /** A severity, of the scored findings if they are there. */
  ghost function Findings(e: Evidence, k: Key): nat {
    Cell(e, if ScoredFindingSeverityCounts in e && e[ScoredFindingSeverityCounts].Table?
            then ScoredFindingSeverityCounts else FindingSeverityCounts, k)
  }

  ghost function LegacyTls(e: Evidence): nat {
    if LegacyTlsCount in e && e[LegacyTlsCount] != Null then Plain(e, LegacyTlsCount) else Findings(e, SevLow)
  }

  // ---------------------------------------------------------------- domains

  ghost predicate Seen(e: Evidence, k: Key) {
    Cell(e, ProtocolCounts, k) > 0
  }

  ghost predicate IsAssessed(e: Evidence, d: Domain) {
    match d
    case Hygiene | ModernTls | AgilitySignals => Plain(e, AssessableEndpointCount) > 0
    case IdentityTrust =>
      || Cell(e, CertificateObservations, CertsObserved) > 0
      || Seen(e, Saml) || Seen(e, Dnssec) || Seen(e, Smime) || Seen(e, Adcs)
      || Cell(e, ProtocolCounts, Kerberos) > Plain(e, KerberosPlaceholderCount) + Plain(e, KerberosScanErrorCount)
    case DataAtRest =>
      || Seen(e, Postgresql) || Seen(e, Mysql) || Seen(e, Rds) || Seen(e, S3) || Seen(e, AzureBlob)
      || Seen(e, Kubernetes) || Seen(e, Vault)
    case DataInMotion =>
      || Seen(e, SmtpStarttls) || Seen(e, Smtps) || Seen(e, Imaps) || Seen(e, ImapStarttls) || Seen(e, Pop3s)
      || Seen(e, Pop3Starttls) || Seen(e, KafkaPlain) || Seen(e, KafkaTls) || Seen(e, AmqpPlain) || Seen(e, Amqps)
      || Seen(e, AmqpsAzureServicebus) || Seen(e, HttpsAwsSqs) || Seen(e, RedisPlain) || Seen(e, RedisTls)
  }

  /** The raw value of a domain: 25 less its penalties, each a weight on the curve of a count, and the
      flat credits. */
  ghost function RawValue(c: nat -> real, e: Evidence, d: Domain): real {
    var errors := c(Cell(e, ScanError, ScanErrorCount));
    var unknown := c(Cell(e, ProtocolCounts, ProtoUnknown));
    match d
    case Hygiene =>
      25.0 - 18.0 * c(Plain(e, PlaintextHttpCount)) - 16.0 * c(Plain(e, HttpOnTlsPortCount)) - 6.0 * errors
    case ModernTls => 25.0 - 14.0 * c(LegacyTls(e)) - 6.0 * unknown - 5.0 * errors
    case IdentityTrust =>
      25.0
      - 14.0 * c(Cell(e, CertificateObservations, ExpiredCount))
      - 7.0 * c(Cell(e, CertificateObservations, ExpiringCount))
      - 9.0 * c(Cell(e, CertificateObservations, SelfSignedCount))
      - 10.0 * c(Plain(e, IdentityWeakEtypeCount))
      - 8.0 * c(Plain(e, SamlWeakSigningCount)) - 8.0 * c(Plain(e, DnssecWeakAlgoCount))
      - 2.0 * c(Plain(e, SmimeWeakSigningCount)) - 2.0 * c(Plain(e, SmimeExpiredCount))
      - 2.0 * c(Plain(e, SmimeWeakKeyCount)) - 2.0 * c(Plain(e, AdcsWeakTemplateCount))
      - 2.0 * c(Plain(e, AdcsMisconfigCount)) - 2.0 * c(Plain(e, AdcsWeakSigningCount))
      - 2.0 * c(Plain(e, AdcsCoverageGapCount))
      + if Plain(e, MtlsPresentCount) > 0 then 6.0 else 0.0
    case AgilitySignals =>
      25.0
      - 6.0 * unknown
      - 6.0 * c(Plain(e, BearerTokenWeakAlgCount)) - 4.0 * c(Plain(e, OpenapiPlaintextServerCount))
      - 6.0 * c(Plain(e, CodesignWeakAlgoCount)) - 4.0 * c(Plain(e, FuzzFindingCount))
      + KeyTypes(e) + if PqcSeen(e) then 8.0 else 0.0
    case DataAtRest =>
      25.0
      - 12.0 * c(Plain(e, DarDbPlaintextCount)) - 6.0 * c(Plain(e, DarDbWeakSslCount))
      - 12.0 * c(Plain(e, DarStorageUnencryptedCount)) - 4.0 * c(Plain(e, DarStorageAwsManagedCount))
      - 10.0 * c(Plain(e, DarK8sUnencryptedCount)) - 4.0 * c(Plain(e, DarK8sInaccessibleCount))
      - 8.0 * c(Plain(e, DarVaultWeakCount))
    case DataInMotion =>
      25.0
      - 12.0 * c(Plain(e, MotionEmailPlaintextCount) + Plain(e, MotionEmailStarttlsMissingCount))
      - 6.0 * c(Plain(e, MotionEmailWeakCipherCount))
      - 14.0 * c(Plain(e, MotionBrokerPlaintextCount)) - 8.0 * c(Plain(e, MotionBrokerWeakTlsCount))
      - 6.0 * c(Plain(e, MotionBrokerWeakCipherCount))
  }

  /** Eight off for a certificate with a classical key, or with one that was not determined. */
  ghost function KeyTypes(e: Evidence): real {
    if Cell(e, CertKeyTypeCounts, KeyRsa) > 0 || Cell(e, CertKeyTypeCounts, KeyEcdsa) > 0
       || Cell(e, CertificateObservations, CertsObserved) > Cell(e, CertKeyTypeCounts, KeyPqc)
    then -8.0 else 0.0
  }

  ghost predicate PqcSeen(e: Evidence) {
    Plain(e, PqcHybridEndpointCount) > 0 || Cell(e, CertKeyTypeCounts, KeyPqc) > 0
  }

  // ---------------------------------------------------------------- rounding and ceilings

  /** The nearest integer, the even one on a tie. */
  ghost predicate Nearest(x: real, k: int) {
    && -0.5 <= k as real - x <= 0.5
    && (k as real - x == 0.5 || k as real - x == -0.5 ==> k % 2 == 0)
  }

  /** The value kept between 0 and 25. */
  ghost function Within(x: real): real {
    if x <= 0.0 then 0.0 else if x >= 25.0 then 25.0 else x
  }

  ghost function ByFindings(critical: nat, high: nat): seq<Ceiling> {
    if critical >= 5 then [Ceiling(25, Consequence, DeepCritical)]
    else if critical > 0 then [Ceiling(34, Consequence, Critical)]
    else if high >= 3 then [Ceiling(54, Consequence, HighMany)]
    else if high > 0 then [Ceiling(69, Consequence, High)]
    else []
  }

  ghost function ByReadiness(e: Evidence): seq<Ceiling> {
    if Plain(e, PqcHybridEndpointCount) == 0 then [Ceiling(84, PqcReadiness, Pqc)] else []
  }

  // ---------------------------------------------------------------- the report

  ghost function Share(r: Report, d: Domain): int {
    if d in r.subscores then r.subscores[d] else 0
  }

  ghost function Shares(r: Report): int {
    Share(r, Hygiene) + Share(r, ModernTls) + Share(r, IdentityTrust) + Share(r, AgilitySignals)
    + Share(r, DataAtRest) + Share(r, DataInMotion)
  }

  /** Each assessed domain has the rounded value it has, and no other domain has one. */
  ghost predicate SubscoresMean(c: nat -> real, e: Evidence, r: Report) {
    forall d: Domain ::
      && (d in r.subscores <==> IsAssessed(e, d))
      && (d in r.subscores ==> Nearest(Within(RawValue(c, e, d)), r.subscores[d]))
  }

  /** The share of the assessed domains' points in percent, rounded. */
  ghost predicate ComputedMeans(r: Report) {
    r.assessed == |r.subscores| > 0 && Nearest(Shares(r) as real / (r.assessed as real * 25.0) * 100.0, r.computed)
  }

  /** That, squeezed by the lowest ceiling. */
  ghost predicate ScoresMean(e: Evidence, r: Report) {
    && ComputedMeans(r)
    && r.ceilings == ByFindings(Findings(e, SevCritical), Findings(e, SevHigh)) + ByReadiness(e)
    && (r.ceilings == [] ==> r.emitted == r.computed)
    && forall lowest :: lowest in r.ceilings && (forall x :: x in r.ceilings ==> lowest.value <= x.value) ==>
         Nearest((lowest.value * r.computed) as real / 100.0, r.emitted)
  }

  ghost predicate Means(c: nat -> real, e: Evidence, r: Report) {
    SubscoresMean(c, e, r) && ScoresMean(e, r)
  }

  // ---------------------------------------------------------------- a table of terms

  lemma NextTerm(c: nat -> real, counts: Path -> nat, ts: seq<Term>, k: nat, d: Domain, p: Path, w: real)
    requires k < |ts| && ts[k] == Term(d, p, w, -1)
    ensures TermSum(c, counts, ts[..k + 1], d) == TermSum(c, counts, ts[..k], d) - w * c(counts(p))
  {
    assert ts[..k + 1][..k] == ts[..k];
  }

  lemma {:induction false} OtherTerms(c: nat -> real, counts: Path -> nat, ts: seq<Term>, a: nat, b: nat, d: Domain)
    requires a <= b <= |ts| && forall k :: a <= k < b ==> ts[k].domain != d
    ensures TermSum(c, counts, ts[..b], d) == TermSum(c, counts, ts[..a], d)
    decreases b
  {
    if a < b {
      OtherTerms(c, counts, ts, a, b - 1, d);
      assert ts[..b][..b - 1] == ts[..b - 1];
    }
  }

  /** The terms of the domain stand together, from `a` to `b`. */
  ghost predicate Together(ts: seq<Term>, a: nat, b: nat, d: Domain) {
    a <= b <= |ts| && forall k :: 0 <= k < |ts| ==> (ts[k].domain == d <==> a <= k < b)
  }

  lemma Block(c: nat -> real, counts: Path -> nat, ts: seq<Term>, a: nat, b: nat, d: Domain)
    requires Together(ts, a, b, d)
    ensures TermSum(c, counts, ts[..a], d) == 0.0
    ensures TermSum(c, counts, ts, d) == TermSum(c, counts, ts[..b], d)
  {
    OtherTerms(c, counts, ts, 0, a, d);
    assert ts[..0] == [];
    OtherTerms(c, counts, ts, b, |ts|, d);
    assert ts[..|ts|] == ts;
  }

  lemma DomainAt(k: nat)
    requires k < |COUNT_TERMS|
    ensures COUNT_TERMS[k].domain ==
            if k < 2 then Hygiene else if k < 4 then ModernTls else if k < 17 then IdentityTrust
            else if k < 22 then AgilitySignals else if k < 29 then DataAtRest else DataInMotion
  {
  }

  lemma TableTogether()
    ensures Together(COUNT_TERMS, 0, 2, Hygiene) && Together(COUNT_TERMS, 2, 4, ModernTls)
    ensures Together(COUNT_TERMS, 4, 17, IdentityTrust) && Together(COUNT_TERMS, 17, 22, AgilitySignals)
    ensures Together(COUNT_TERMS, 22, 29, DataAtRest) && Together(COUNT_TERMS, 29, 34, DataInMotion)
  {
    forall k | 0 <= k < |COUNT_TERMS|
      ensures COUNT_TERMS[k].domain ==
              if k < 2 then Hygiene else if k < 4 then ModernTls else if k < 17 then IdentityTrust
              else if k < 22 then AgilitySignals else if k < 29 then DataAtRest else DataInMotion
    {
      DomainAt(k);
    }
  }

  ghost predicate HygieneRows(ts: seq<Term>) {
    && |ts| >= 2
    && ts[0] == Term(Hygiene, Top(PlaintextHttpCount), 18.0, -1)
    && ts[1] == Term(Hygiene, Top(HttpOnTlsPortCount), 16.0, -1)
  }

  lemma HygieneTerms(c: nat -> real, counts: Path -> nat, ts: seq<Term>)
    requires HygieneRows(ts) && Together(ts, 0, 2, Hygiene)
    ensures TermSum(c, counts, ts, Hygiene) ==
            -18.0 * c(counts(Top(PlaintextHttpCount)))
            - 16.0 * c(counts(Top(HttpOnTlsPortCount)))
  {
    Block(c, counts, ts, 0, 2, Hygiene);
    NextTerm(c, counts, ts, 0, Hygiene, Top(PlaintextHttpCount), 18.0);
    NextTerm(c, counts, ts, 1, Hygiene, Top(HttpOnTlsPortCount), 16.0);
  }

  ghost predicate ModernTlsRows(ts: seq<Term>) {
    && |ts| >= 4
    && ts[2] == Term(ModernTls, Top(LegacyTlsCount), 14.0, -1)
    && ts[3] == Term(ModernTls, In(ProtocolCounts, ProtoUnknown), 6.0, -1)
  }

  lemma ModernTlsTerms(c: nat -> real, counts: Path -> nat, ts: seq<Term>)
    requires ModernTlsRows(ts) && Together(ts, 2, 4, ModernTls)
    ensures TermSum(c, counts, ts, ModernTls) ==
            -14.0 * c(counts(Top(LegacyTlsCount)))
            - 6.0 * c(counts(In(ProtocolCounts, ProtoUnknown)))
  {
    Block(c, counts, ts, 2, 4, ModernTls);
    NextTerm(c, counts, ts, 2, ModernTls, Top(LegacyTlsCount), 14.0);
    NextTerm(c, counts, ts, 3, ModernTls, In(ProtocolCounts, ProtoUnknown), 6.0);
  }

  ghost predicate CertificateRows(ts: seq<Term>) {
    && |ts| >= 17
    && ts[4] == Term(IdentityTrust, In(CertificateObservations, ExpiredCount), 14.0, -1)
    && ts[5] == Term(IdentityTrust, In(CertificateObservations, ExpiringCount), 7.0, -1)
    && ts[6] == Term(IdentityTrust, In(CertificateObservations, SelfSignedCount), 9.0, -1)
    && ts[7] == Term(IdentityTrust, Top(IdentityWeakEtypeCount), 10.0, -1)
    && ts[8] == Term(IdentityTrust, Top(SamlWeakSigningCount), 8.0, -1)
    && ts[9] == Term(IdentityTrust, Top(DnssecWeakAlgoCount), 8.0, -1)
  }

  ghost predicate DirectoryRows(ts: seq<Term>) {
    && |ts| >= 17
    && ts[10] == Term(IdentityTrust, Top(SmimeWeakSigningCount), 2.0, -1)
    && ts[11] == Term(IdentityTrust, Top(SmimeExpiredCount), 2.0, -1)
    && ts[12] == Term(IdentityTrust, Top(SmimeWeakKeyCount), 2.0, -1)
    && ts[13] == Term(IdentityTrust, Top(AdcsWeakTemplateCount), 2.0, -1)
    && ts[14] == Term(IdentityTrust, Top(AdcsMisconfigCount), 2.0, -1)
    && ts[15] == Term(IdentityTrust, Top(AdcsWeakSigningCount), 2.0, -1)
    && ts[16] == Term(IdentityTrust, Top(AdcsCoverageGapCount), 2.0, -1)
  }

  ghost predicate IdentityTrustRows(ts: seq<Term>) {
    CertificateRows(ts) && DirectoryRows(ts)
  }

  lemma IdentityTrustTerms1(c: nat -> real, counts: Path -> nat, ts: seq<Term>)
    requires IdentityTrustRows(ts)
    ensures TermSum(c, counts, ts[..8], IdentityTrust) == TermSum(c, counts, ts[..4], IdentityTrust)
            - 14.0 * c(counts(In(CertificateObservations, ExpiredCount)))
            - 7.0 * c(counts(In(CertificateObservations, ExpiringCount)))
            - 9.0 * c(counts(In(CertificateObservations, SelfSignedCount)))
            - 10.0 * c(counts(Top(IdentityWeakEtypeCount)))
  {
    NextTerm(c, counts, ts, 4, IdentityTrust, In(CertificateObservations, ExpiredCount), 14.0);
    NextTerm(c, counts, ts, 5, IdentityTrust, In(CertificateObservations, ExpiringCount), 7.0);
    NextTerm(c, counts, ts, 6, IdentityTrust, In(CertificateObservations, SelfSignedCount), 9.0);
    NextTerm(c, counts, ts, 7, IdentityTrust, Top(IdentityWeakEtypeCount), 10.0);
  }

  lemma IdentityTrustTerms2(c: nat -> real, counts: Path -> nat, ts: seq<Term>)
    requires IdentityTrustRows(ts)
    ensures TermSum(c, counts, ts[..12], IdentityTrust) == TermSum(c, counts, ts[..8], IdentityTrust)
            - 8.0 * c(counts(Top(SamlWeakSigningCount)))
            - 8.0 * c(counts(Top(DnssecWeakAlgoCount)))
            - 2.0 * c(counts(Top(SmimeWeakSigningCount)))
            - 2.0 * c(counts(Top(SmimeExpiredCount)))
  {
    NextTerm(c, counts, ts, 8, IdentityTrust, Top(SamlWeakSigningCount), 8.0);
    NextTerm(c, counts, ts, 9, IdentityTrust, Top(DnssecWeakAlgoCount), 8.0);
    NextTerm(c, counts, ts, 10, IdentityTrust, Top(SmimeWeakSigningCount), 2.0);
    NextTerm(c, counts, ts, 11, IdentityTrust, Top(SmimeExpiredCount), 2.0);
  }

  lemma IdentityTrustTerms3(c: nat -> real, counts: Path -> nat, ts: seq<Term>)
    requires IdentityTrustRows(ts)
    ensures TermSum(c, counts, ts[..17], IdentityTrust) == TermSum(c, counts, ts[..12], IdentityTrust)
            - 2.0 * c(counts(Top(SmimeWeakKeyCount)))
            - 2.0 * c(counts(Top(AdcsWeakTemplateCount)))
            - 2.0 * c(counts(Top(AdcsMisconfigCount)))
            - 2.0 * c(counts(Top(AdcsWeakSigningCount)))
            - 2.0 * c(counts(Top(AdcsCoverageGapCount)))
  {
    NextTerm(c, counts, ts, 12, IdentityTrust, Top(SmimeWeakKeyCount), 2.0);
    NextTerm(c, counts, ts, 13, IdentityTrust, Top(AdcsWeakTemplateCount), 2.0);
    NextTerm(c, counts, ts, 14, IdentityTrust, Top(AdcsMisconfigCount), 2.0);
    NextTerm(c, counts, ts, 15, IdentityTrust, Top(AdcsWeakSigningCount), 2.0);
    NextTerm(c, counts, ts, 16, IdentityTrust, Top(AdcsCoverageGapCount), 2.0);
  }

  lemma IdentityTrustTerms(c: nat -> real, counts: Path -> nat, ts: seq<Term>)
    requires IdentityTrustRows(ts) && Together(ts, 4, 17, IdentityTrust)
    ensures TermSum(c, counts, ts, IdentityTrust) ==
            -14.0 * c(counts(In(CertificateObservations, ExpiredCount)))
            - 7.0 * c(counts(In(CertificateObservations, ExpiringCount)))
            - 9.0 * c(counts(In(CertificateObservations, SelfSignedCount)))
            - 10.0 * c(counts(Top(IdentityWeakEtypeCount)))
            - 8.0 * c(counts(Top(SamlWeakSigningCount)))
            - 8.0 * c(counts(Top(DnssecWeakAlgoCount)))
            - 2.0 * c(counts(Top(SmimeWeakSigningCount)))
            - 2.0 * c(counts(Top(SmimeExpiredCount)))
            - 2.0 * c(counts(Top(SmimeWeakKeyCount)))
            - 2.0 * c(counts(Top(AdcsWeakTemplateCount)))
            - 2.0 * c(counts(Top(AdcsMisconfigCount)))
            - 2.0 * c(counts(Top(AdcsWeakSigningCount)))
            - 2.0 * c(counts(Top(AdcsCoverageGapCount)))
  {
    Block(c, counts, ts, 4, 17, IdentityTrust);
    IdentityTrustTerms1(c, counts, ts);
    IdentityTrustTerms2(c, counts, ts);
    IdentityTrustTerms3(c, counts, ts);
  }

  ghost predicate AgilitySignalsRows(ts: seq<Term>) {
    && |ts| >= 22
    && ts[17] == Term(AgilitySignals, In(ProtocolCounts, ProtoUnknown), 6.0, -1)
    && ts[18] == Term(AgilitySignals, Top(BearerTokenWeakAlgCount), 6.0, -1)
    && ts[19] == Term(AgilitySignals, Top(OpenapiPlaintextServerCount), 4.0, -1)
    && ts[20] == Term(AgilitySignals, Top(CodesignWeakAlgoCount), 6.0, -1)
    && ts[21] == Term(AgilitySignals, Top(FuzzFindingCount), 4.0, -1)
  }

  lemma AgilitySignalsTerms(c: nat -> real, counts: Path -> nat, ts: seq<Term>)
    requires AgilitySignalsRows(ts) && Together(ts, 17, 22, AgilitySignals)
    ensures TermSum(c, counts, ts, AgilitySignals) ==
            -6.0 * c(counts(In(ProtocolCounts, ProtoUnknown)))
            - 6.0 * c(counts(Top(BearerTokenWeakAlgCount)))
            - 4.0 * c(counts(Top(OpenapiPlaintextServerCount)))
            - 6.0 * c(counts(Top(CodesignWeakAlgoCount)))
            - 4.0 * c(counts(Top(FuzzFindingCount)))
  {
    Block(c, counts, ts, 17, 22, AgilitySignals);
    NextTerm(c, counts, ts, 17, AgilitySignals, In(ProtocolCounts, ProtoUnknown), 6.0);
    NextTerm(c, counts, ts, 18, AgilitySignals, Top(BearerTokenWeakAlgCount), 6.0);
    NextTerm(c, counts, ts, 19, AgilitySignals, Top(OpenapiPlaintextServerCount), 4.0);
    NextTerm(c, counts, ts, 20, AgilitySignals, Top(CodesignWeakAlgoCount), 6.0);
    NextTerm(c, counts, ts, 21, AgilitySignals, Top(FuzzFindingCount), 4.0);
  }

  ghost predicate DataAtRestRows(ts: seq<Term>) {
    && |ts| >= 29
    && ts[22] == Term(DataAtRest, Top(DarDbPlaintextCount), 12.0, -1)
    && ts[23] == Term(DataAtRest, Top(DarDbWeakSslCount), 6.0, -1)
    && ts[24] == Term(DataAtRest, Top(DarStorageUnencryptedCount), 12.0, -1)
    && ts[25] == Term(DataAtRest, Top(DarStorageAwsManagedCount), 4.0, -1)
    && ts[26] == Term(DataAtRest, Top(DarK8sUnencryptedCount), 10.0, -1)
    && ts[27] == Term(DataAtRest, Top(DarK8sInaccessibleCount), 4.0, -1)
    && ts[28] == Term(DataAtRest, Top(DarVaultWeakCount), 8.0, -1)
  }

  lemma DataAtRestTerms1(c: nat -> real, counts: Path -> nat, ts: seq<Term>)
    requires DataAtRestRows(ts)
    ensures TermSum(c, counts, ts[..26], DataAtRest) == TermSum(c, counts, ts[..22], DataAtRest)
            - 12.0 * c(counts(Top(DarDbPlaintextCount)))
            - 6.0 * c(counts(Top(DarDbWeakSslCount)))
            - 12.0 * c(counts(Top(DarStorageUnencryptedCount)))
            - 4.0 * c(counts(Top(DarStorageAwsManagedCount)))
  {
    NextTerm(c, counts, ts, 22, DataAtRest, Top(DarDbPlaintextCount), 12.0);
    NextTerm(c, counts, ts, 23, DataAtRest, Top(DarDbWeakSslCount), 6.0);
    NextTerm(c, counts, ts, 24, DataAtRest, Top(DarStorageUnencryptedCount), 12.0);
    NextTerm(c, counts, ts, 25, DataAtRest, Top(DarStorageAwsManagedCount), 4.0);
  }

  lemma DataAtRestTerms2(c: nat -> real, counts: Path -> nat, ts: seq<Term>)
    requires DataAtRestRows(ts)
    ensures TermSum(c, counts, ts[..29], DataAtRest) == TermSum(c, counts, ts[..26], DataAtRest)
            - 10.0 * c(counts(Top(DarK8sUnencryptedCount)))
            - 4.0 * c(counts(Top(DarK8sInaccessibleCount)))
            - 8.0 * c(counts(Top(DarVaultWeakCount)))
  {
    NextTerm(c, counts, ts, 26, DataAtRest, Top(DarK8sUnencryptedCount), 10.0);
    NextTerm(c, counts, ts, 27, DataAtRest, Top(DarK8sInaccessibleCount), 4.0);
    NextTerm(c, counts, ts, 28, DataAtRest, Top(DarVaultWeakCount), 8.0);
  }

  lemma DataAtRestTerms(c: nat -> real, counts: Path -> nat, ts: seq<Term>)
    requires DataAtRestRows(ts) && Together(ts, 22, 29, DataAtRest)
    ensures TermSum(c, counts, ts, DataAtRest) ==
            -12.0 * c(counts(Top(DarDbPlaintextCount)))
            - 6.0 * c(counts(Top(DarDbWeakSslCount)))
            - 12.0 * c(counts(Top(DarStorageUnencryptedCount)))
            - 4.0 * c(counts(Top(DarStorageAwsManagedCount)))
            - 10.0 * c(counts(Top(DarK8sUnencryptedCount)))
            - 4.0 * c(counts(Top(DarK8sInaccessibleCount)))
            - 8.0 * c(counts(Top(DarVaultWeakCount)))
  {
    Block(c, counts, ts, 22, 29, DataAtRest);
    DataAtRestTerms1(c, counts, ts);
    DataAtRestTerms2(c, counts, ts);
  }

  ghost predicate DataInMotionRows(ts: seq<Term>) {
    && |ts| >= 34
    && ts[29] == Term(DataInMotion, Top(MotionEmailPlaintextCount), 12.0, -1)
    && ts[30] == Term(DataInMotion, Top(MotionEmailWeakCipherCount), 6.0, -1)
    && ts[31] == Term(DataInMotion, Top(MotionBrokerPlaintextCount), 14.0, -1)
    && ts[32] == Term(DataInMotion, Top(MotionBrokerWeakTlsCount), 8.0, -1)
    && ts[33] == Term(DataInMotion, Top(MotionBrokerWeakCipherCount), 6.0, -1)
  }

  lemma DataInMotionTerms(c: nat -> real, counts: Path -> nat, ts: seq<Term>)
    requires DataInMotionRows(ts) && Together(ts, 29, 34, DataInMotion)
    ensures TermSum(c, counts, ts, DataInMotion) ==
            -12.0 * c(counts(Top(MotionEmailPlaintextCount)))
            - 6.0 * c(counts(Top(MotionEmailWeakCipherCount)))
            - 14.0 * c(counts(Top(MotionBrokerPlaintextCount)))
            - 8.0 * c(counts(Top(MotionBrokerWeakTlsCount)))
            - 6.0 * c(counts(Top(MotionBrokerWeakCipherCount)))
  {
    Block(c, counts, ts, 29, 34, DataInMotion);
    NextTerm(c, counts, ts, 29, DataInMotion, Top(MotionEmailPlaintextCount), 12.0);
    NextTerm(c, counts, ts, 30, DataInMotion, Top(MotionEmailWeakCipherCount), 6.0);
    NextTerm(c, counts, ts, 31, DataInMotion, Top(MotionBrokerPlaintextCount), 14.0);
    NextTerm(c, counts, ts, 32, DataInMotion, Top(MotionBrokerWeakTlsCount), 8.0);
    NextTerm(c, counts, ts, 33, DataInMotion, Top(MotionBrokerWeakCipherCount), 6.0);
  }

  // ---------------------------------------------------------------- reading the evidence

  lemma ViewIs(e: Evidence, p: Path)
    ensures View(e)(p) == match p
                          case Top(k) => if k == LegacyTlsCount then LegacyTls(e) else Plain(e, k)
                          case In(t, k) => Cell(e, t, k)
  {
  }

  lemma SeverityIs(e: Evidence, k: Key)
    ensures SeverityCount(e, k) == Findings(e, k)
  {
  }

  lemma NumeratorIs(e: Evidence, p: Path)
    ensures Numerators(View(e))(p) ==
            if p == Top(MotionEmailPlaintextCount)
            then Plain(e, MotionEmailPlaintextCount) + Plain(e, MotionEmailStarttlsMissingCount)
            else View(e)(p)
  {
    if p == Top(MotionEmailPlaintextCount) {
      var extra := [Top(MotionEmailStarttlsMissingCount)];
      assert extra[..0] == [];
    }
  }

  lemma FewRows()
    ensures HygieneRows(COUNT_TERMS) && ModernTlsRows(COUNT_TERMS) && AgilitySignalsRows(COUNT_TERMS)
  {
  }

  lemma IdentityRows()
    ensures IdentityTrustRows(COUNT_TERMS)
  {
    FirstIdentityRows();
  }

  lemma FirstIdentityRows()
    ensures CertificateRows(COUNT_TERMS)
  {
  }

  lemma DataRows()
    ensures DataAtRestRows(COUNT_TERMS) && DataInMotionRows(COUNT_TERMS)
  {
  }

  lemma FlatTerms(e: Evidence, d: Domain)
    ensures PresenceSum(View(e), PRESENCE_TERMS, d) ==
            if d == IdentityTrust && Plain(e, MtlsPresentCount) > 0 then 6.0 else 0.0
    ensures KeyTypeTerm(View(e)) == KeyTypes(e)
    ensures PqcCredit(View(e)) == if PqcSeen(e) then 8.0 else 0.0
  {
    assert PRESENCE_TERMS[..0] == [];
    assert PRESENCE_TERMS[0] == Term(IdentityTrust, Top(MtlsPresentCount), 6.0, 1);
  }

  lemma ErrorTerm(c: nat -> real, e: Evidence, d: Domain)
    ensures ScanErrorPenalty(c, View(e)(SCAN_ERROR_PATH), d) ==
            var errors := c(Cell(e, ScanError, ScanErrorCount));
            if d == Hygiene then errors * 6.0 else if d == ModernTls then errors * 5.0 else 0.0
  {
  }

  ghost function Counts(e: Evidence): Path -> nat {
    Numerators(View(e))
  }

  lemma CountAt(e: Evidence, p: Path)
    ensures p.In? ==> Counts(e)(p) == Cell(e, p.table, p.row)
    ensures p.Top? && p.key != LegacyTlsCount && p.key != MotionEmailPlaintextCount ==> Counts(e)(p) == Plain(e, p.key)
    ensures p == Top(LegacyTlsCount) ==> Counts(e)(p) == LegacyTls(e)
    ensures p == Top(MotionEmailPlaintextCount) ==>
              Counts(e)(p) == Plain(e, MotionEmailPlaintextCount) + Plain(e, MotionEmailStarttlsMissingCount)
  {
    NumeratorIs(e, p);
    ViewIs(e, p);
  }

  /** What a term reads at a path. */
  ghost function Reading(e: Evidence, p: Path): nat {
    match p
    case Top(k) =>
      if k == LegacyTlsCount then LegacyTls(e)
      else if k == MotionEmailPlaintextCount then Plain(e, k) + Plain(e, MotionEmailStarttlsMissingCount)
      else Plain(e, k)
    case In(t, k) => Cell(e, t, k)
  }

  lemma CountsAreRead(e: Evidence)
    ensures forall p :: Counts(e)(p) == Reading(e, p)
  {
    forall p ensures Counts(e)(p) == Reading(e, p) {
      CountAt(e, p);
    }
  }

  lemma HygienePenalties(c: nat -> real, e: Evidence, ts: seq<Term>, counts: Path -> nat)
    requires HygieneRows(ts) && Together(ts, 0, 2, Hygiene) && forall p :: counts(p) == Reading(e, p)
    ensures TermSum(c, counts, ts, Hygiene) ==
            -18.0 * c(Plain(e, PlaintextHttpCount))
            - 16.0 * c(Plain(e, HttpOnTlsPortCount))
  {
    HygieneTerms(c, counts, ts);
    assert counts(Top(PlaintextHttpCount)) == Plain(e, PlaintextHttpCount);
    assert counts(Top(HttpOnTlsPortCount)) == Plain(e, HttpOnTlsPortCount);
  }

  lemma HygieneMeans(c: nat -> real, e: Evidence, ts: seq<Term>)
    requires HygieneRows(ts) && Together(ts, 0, 2, Hygiene)
    ensures Raw(c, ts, View(e), Hygiene) == RawValue(c, e, Hygiene)
  {
    CountsAreRead(e);
    HygienePenalties(c, e, ts, Counts(e));
    RawIs(c, e, ts, Hygiene);
  }

  lemma ModernTlsPenalties(c: nat -> real, e: Evidence, ts: seq<Term>, counts: Path -> nat)
    requires ModernTlsRows(ts) && Together(ts, 2, 4, ModernTls) && forall p :: counts(p) == Reading(e, p)
    ensures TermSum(c, counts, ts, ModernTls) ==
            -14.0 * c(LegacyTls(e))
            - 6.0 * c(Cell(e, ProtocolCounts, ProtoUnknown))
  {
    ModernTlsTerms(c, counts, ts);
    assert counts(Top(LegacyTlsCount)) == LegacyTls(e);
    assert counts(In(ProtocolCounts, ProtoUnknown)) == Cell(e, ProtocolCounts, ProtoUnknown);
  }

  lemma ModernTlsMeans(c: nat -> real, e: Evidence, ts: seq<Term>)
    requires ModernTlsRows(ts) && Together(ts, 2, 4, ModernTls)
    ensures Raw(c, ts, View(e), ModernTls) == RawValue(c, e, ModernTls)
  {
    CountsAreRead(e);
    ModernTlsPenalties(c, e, ts, Counts(e));
    RawIs(c, e, ts, ModernTls);
  }

  lemma IdentityTrustPenalties(c: nat -> real, e: Evidence, ts: seq<Term>, counts: Path -> nat)
    requires IdentityTrustRows(ts) && Together(ts, 4, 17, IdentityTrust) && forall p :: counts(p) == Reading(e, p)
    ensures TermSum(c, counts, ts, IdentityTrust) ==
            -14.0 * c(Cell(e, CertificateObservations, ExpiredCount))
            - 7.0 * c(Cell(e, CertificateObservations, ExpiringCount))
            - 9.0 * c(Cell(e, CertificateObservations, SelfSignedCount))
            - 10.0 * c(Plain(e, IdentityWeakEtypeCount))
            - 8.0 * c(Plain(e, SamlWeakSigningCount))
            - 8.0 * c(Plain(e, DnssecWeakAlgoCount))
            - 2.0 * c(Plain(e, SmimeWeakSigningCount))
            - 2.0 * c(Plain(e, SmimeExpiredCount))
            - 2.0 * c(Plain(e, SmimeWeakKeyCount))
            - 2.0 * c(Plain(e, AdcsWeakTemplateCount))
            - 2.0 * c(Plain(e, AdcsMisconfigCount))
            - 2.0 * c(Plain(e, AdcsWeakSigningCount))
            - 2.0 * c(Plain(e, AdcsCoverageGapCount))
  {
    IdentityTrustTerms(c, counts, ts);
    assert counts(In(CertificateObservations, ExpiredCount)) == Cell(e, CertificateObservations, ExpiredCount);
    assert counts(In(CertificateObservations, ExpiringCount)) == Cell(e, CertificateObservations, ExpiringCount);
    assert counts(In(CertificateObservations, SelfSignedCount)) == Cell(e, CertificateObservations, SelfSignedCount);
    assert counts(Top(IdentityWeakEtypeCount)) == Plain(e, IdentityWeakEtypeCount);
    assert counts(Top(SamlWeakSigningCount)) == Plain(e, SamlWeakSigningCount);
    assert counts(Top(DnssecWeakAlgoCount)) == Plain(e, DnssecWeakAlgoCount);
    assert counts(Top(SmimeWeakSigningCount)) == Plain(e, SmimeWeakSigningCount);
    assert counts(Top(SmimeExpiredCount)) == Plain(e, SmimeExpiredCount);
    assert counts(Top(SmimeWeakKeyCount)) == Plain(e, SmimeWeakKeyCount);
    assert counts(Top(AdcsWeakTemplateCount)) == Plain(e, AdcsWeakTemplateCount);
    assert counts(Top(AdcsMisconfigCount)) == Plain(e, AdcsMisconfigCount);
    assert counts(Top(AdcsWeakSigningCount)) == Plain(e, AdcsWeakSigningCount);
    assert counts(Top(AdcsCoverageGapCount)) == Plain(e, AdcsCoverageGapCount);
  }

  lemma IdentityTrustMeans(c: nat -> real, e: Evidence, ts: seq<Term>)
    requires IdentityTrustRows(ts) && Together(ts, 4, 17, IdentityTrust)
    ensures Raw(c, ts, View(e), IdentityTrust) == RawValue(c, e, IdentityTrust)
  {
    CountsAreRead(e);
    IdentityTrustPenalties(c, e, ts, Counts(e));
    RawIs(c, e, ts, IdentityTrust);
  }

  lemma AgilitySignalsPenalties(c: nat -> real, e: Evidence, ts: seq<Term>, counts: Path -> nat)
    requires AgilitySignalsRows(ts) && Together(ts, 17, 22, AgilitySignals) && forall p :: counts(p) == Reading(e, p)
    ensures TermSum(c, counts, ts, AgilitySignals) ==
            -6.0 * c(Cell(e, ProtocolCounts, ProtoUnknown))
            - 6.0 * c(Plain(e, BearerTokenWeakAlgCount))
            - 4.0 * c(Plain(e, OpenapiPlaintextServerCount))
            - 6.0 * c(Plain(e, CodesignWeakAlgoCount))
            - 4.0 * c(Plain(e, FuzzFindingCount))
  {
    AgilitySignalsTerms(c, counts, ts);
    assert counts(In(ProtocolCounts, ProtoUnknown)) == Cell(e, ProtocolCounts, ProtoUnknown);
    assert counts(Top(BearerTokenWeakAlgCount)) == Plain(e, BearerTokenWeakAlgCount);
    assert counts(Top(OpenapiPlaintextServerCount)) == Plain(e, OpenapiPlaintextServerCount);
    assert counts(Top(CodesignWeakAlgoCount)) == Plain(e, CodesignWeakAlgoCount);
    assert counts(Top(FuzzFindingCount)) == Plain(e, FuzzFindingCount);
  }

  lemma AgilitySignalsMeans(c: nat -> real, e: Evidence, ts: seq<Term>)
    requires AgilitySignalsRows(ts) && Together(ts, 17, 22, AgilitySignals)
    ensures Raw(c, ts, View(e), AgilitySignals) == RawValue(c, e, AgilitySignals)
  {
    CountsAreRead(e);
    AgilitySignalsPenalties(c, e, ts, Counts(e));
    RawIs(c, e, ts, AgilitySignals);
  }

  lemma DataAtRestPenalties(c: nat -> real, e: Evidence, ts: seq<Term>, counts: Path -> nat)
    requires DataAtRestRows(ts) && Together(ts, 22, 29, DataAtRest) && forall p :: counts(p) == Reading(e, p)
    ensures TermSum(c, counts, ts, DataAtRest) ==
            -12.0 * c(Plain(e, DarDbPlaintextCount))
            - 6.0 * c(Plain(e, DarDbWeakSslCount))
            - 12.0 * c(Plain(e, DarStorageUnencryptedCount))
            - 4.0 * c(Plain(e, DarStorageAwsManagedCount))
            - 10.0 * c(Plain(e, DarK8sUnencryptedCount))
            - 4.0 * c(Plain(e, DarK8sInaccessibleCount))
            - 8.0 * c(Plain(e, DarVaultWeakCount))
  {
    DataAtRestTerms(c, counts, ts);
    assert counts(Top(DarDbPlaintextCount)) == Plain(e, DarDbPlaintextCount);
    assert counts(Top(DarDbWeakSslCount)) == Plain(e, DarDbWeakSslCount);
    assert counts(Top(DarStorageUnencryptedCount)) == Plain(e, DarStorageUnencryptedCount);
    assert counts(Top(DarStorageAwsManagedCount)) == Plain(e, DarStorageAwsManagedCount);
    assert counts(Top(DarK8sUnencryptedCount)) == Plain(e, DarK8sUnencryptedCount);
    assert counts(Top(DarK8sInaccessibleCount)) == Plain(e, DarK8sInaccessibleCount);
    assert counts(Top(DarVaultWeakCount)) == Plain(e, DarVaultWeakCount);
  }

  lemma DataAtRestMeans(c: nat -> real, e: Evidence, ts: seq<Term>)
    requires DataAtRestRows(ts) && Together(ts, 22, 29, DataAtRest)
    ensures Raw(c, ts, View(e), DataAtRest) == RawValue(c, e, DataAtRest)
  {
    CountsAreRead(e);
    DataAtRestPenalties(c, e, ts, Counts(e));
    RawIs(c, e, ts, DataAtRest);
  }

  lemma DataInMotionPenalties(c: nat -> real, e: Evidence, ts: seq<Term>, counts: Path -> nat)
    requires DataInMotionRows(ts) && Together(ts, 29, 34, DataInMotion) && forall p :: counts(p) == Reading(e, p)
    ensures TermSum(c, counts, ts, DataInMotion) ==
            -12.0 * c(Plain(e, MotionEmailPlaintextCount) + Plain(e, MotionEmailStarttlsMissingCount))
            - 6.0 * c(Plain(e, MotionEmailWeakCipherCount))
            - 14.0 * c(Plain(e, MotionBrokerPlaintextCount))
            - 8.0 * c(Plain(e, MotionBrokerWeakTlsCount))
            - 6.0 * c(Plain(e, MotionBrokerWeakCipherCount))
  {
    DataInMotionTerms(c, counts, ts);
    assert counts(Top(MotionEmailPlaintextCount)) == Plain(e, MotionEmailPlaintextCount) + Plain(e, MotionEmailStarttlsMissingCount);
    assert counts(Top(MotionEmailWeakCipherCount)) == Plain(e, MotionEmailWeakCipherCount);
    assert counts(Top(MotionBrokerPlaintextCount)) == Plain(e, MotionBrokerPlaintextCount);
    assert counts(Top(MotionBrokerWeakTlsCount)) == Plain(e, MotionBrokerWeakTlsCount);
    assert counts(Top(MotionBrokerWeakCipherCount)) == Plain(e, MotionBrokerWeakCipherCount);
  }

  lemma DataInMotionMeans(c: nat -> real, e: Evidence, ts: seq<Term>)
    requires DataInMotionRows(ts) && Together(ts, 29, 34, DataInMotion)
    ensures Raw(c, ts, View(e), DataInMotion) == RawValue(c, e, DataInMotion)
  {
    CountsAreRead(e);
    DataInMotionPenalties(c, e, ts, Counts(e));
    RawIs(c, e, ts, DataInMotion);
  }

  lemma RawIs(c: nat -> real, e: Evidence, ts: seq<Term>, d: Domain)
    ensures Raw(c, ts, View(e), d) ==
            var errors := c(Cell(e, ScanError, ScanErrorCount));
            25.0 + TermSum(c, Counts(e), ts, d)
            + (if d == IdentityTrust && Plain(e, MtlsPresentCount) > 0 then 6.0 else 0.0)
            - (if d == Hygiene then errors * 6.0 else if d == ModernTls then errors * 5.0 else 0.0)
            + if d == AgilitySignals then KeyTypes(e) + (if PqcSeen(e) then 8.0 else 0.0) else 0.0
  {
    FlatTerms(e, d);
    ErrorTerm(c, e, d);
  }

  /** The tables and sums compute just that. */
  lemma RawMeans(c: nat -> real, e: Evidence, d: Domain)
    ensures Raw(c, COUNT_TERMS, View(e), d) == RawValue(c, e, d)
  {
    TableTogether();
    match d
    case Hygiene => FewRows(); HygieneMeans(c, e, COUNT_TERMS);
    case ModernTls => FewRows(); ModernTlsMeans(c, e, COUNT_TERMS);
    case IdentityTrust => IdentityRows(); IdentityTrustMeans(c, e, COUNT_TERMS);
    case AgilitySignals => FewRows(); AgilitySignalsMeans(c, e, COUNT_TERMS);
    case DataAtRest => DataRows(); DataAtRestMeans(c, e, COUNT_TERMS);
    case DataInMotion => DataRows(); DataInMotionMeans(c, e, COUNT_TERMS);
  }

  // ---------------------------------------------------------------- what is assessed

  ghost predicate AnySeen(e: Evidence, keys: seq<Key>) {
    exists i :: 0 <= i < |keys| && Seen(e, keys[i])
  }

  lemma AnySeenSnoc(e: Evidence, keys: seq<Key>)
    requires |keys| > 0
    ensures AnySeen(e, keys) <==> AnySeen(e, keys[..|keys| - 1]) || Seen(e, keys[|keys| - 1])
  {
    var init := keys[..|keys| - 1];
    if AnySeen(e, init) {
      var i :| 0 <= i < |init| && Seen(e, init[i]);
      assert Seen(e, keys[i]);
    }
    if AnySeen(e, keys) {
      var i :| 0 <= i < |keys| && Seen(e, keys[i]);
      assert i < |init| ==> Seen(e, init[i]);
    }
  }

  lemma {:induction false} SomeSeen(e: Evidence, keys: seq<Key>)
    ensures Sum(View(e), Rows(keys)) > 0 <==> AnySeen(e, keys)
    decreases |keys|
  {
    if |keys| > 0 {
      var n := |keys| - 1;
      SomeSeen(e, keys[..n]);
      AnySeenSnoc(e, keys);
      assert Rows(keys)[..n] == Rows(keys[..n]);
      ViewIs(e, In(ProtocolCounts, keys[n]));
    }
  }

  lemma ShareMeans(e: Evidence, k: Key)
    ensures k != Kerberos ==> (IdentityShare(View(e), k) > 0 <==> Seen(e, k))
    ensures IdentityShare(View(e), Kerberos) > 0 <==>
              Cell(e, ProtocolCounts, Kerberos) > Plain(e, KerberosPlaceholderCount) + Plain(e, KerberosScanErrorCount)
  {
    ViewIs(e, In(ProtocolCounts, k));
    ViewIs(e, In(ProtocolCounts, Kerberos));
    ViewIs(e, Top(KerberosPlaceholderCount));
    ViewIs(e, Top(KerberosScanErrorCount));
  }

  lemma IdentitySumSnoc(r: Path -> nat, keys: seq<Key>, k: Key)
    ensures IdentitySum(r, keys + [k]) == IdentitySum(r, keys) + IdentityShare(r, k)
  {
    assert (keys + [k])[..|keys|] == keys;
  }

  lemma IdentitySumIs(r: Path -> nat)
    ensures IdentitySum(r, IDENTITY_KEYS) ==
            IdentityShare(r, Kerberos) + IdentityShare(r, Saml) + IdentityShare(r, Dnssec) + IdentityShare(r, Smime)
            + IdentityShare(r, Adcs)
  {
    IdentitySumSnoc(r, [], Kerberos);
    IdentitySumSnoc(r, [Kerberos], Saml);
    IdentitySumSnoc(r, [Kerberos, Saml], Dnssec);
    IdentitySumSnoc(r, [Kerberos, Saml, Dnssec], Smime);
    IdentitySumSnoc(r, [Kerberos, Saml, Dnssec, Smime], Adcs);
    assert IDENTITY_KEYS == [Kerberos, Saml, Dnssec, Smime] + [Adcs];
    assert [Kerberos, Saml, Dnssec, Smime] == [Kerberos, Saml, Dnssec] + [Smime];
    assert [Kerberos, Saml, Dnssec] == [Kerberos, Saml] + [Dnssec];
    assert [Kerberos, Saml] == [Kerberos] + [Saml];
    assert [Kerberos] == [] + [Kerberos];
  }

  lemma IdentityMeans(e: Evidence)
    ensures Assessed(View(e), IdentityTrust) <==> IsAssessed(e, IdentityTrust)
  {
    IdentitySumIs(View(e));
    ShareMeans(e, Saml);
    ShareMeans(e, Dnssec);
    ShareMeans(e, Smime);
    ShareMeans(e, Adcs);
    ViewIs(e, C_PATH);
  }

  lemma DarMeans(e: Evidence)
    ensures Assessed(View(e), DataAtRest) <==> IsAssessed(e, DataAtRest)
  {
    SomeSeen(e, DAR_KEYS);
    var ks := DAR_KEYS;
    if IsAssessed(e, DataAtRest) {
      assert Seen(e, ks[0]) || Seen(e, ks[1]) || Seen(e, ks[2]) || Seen(e, ks[3]) || Seen(e, ks[4]) || Seen(e, ks[5])
             || Seen(e, ks[6]);
    }
  }

  lemma MotionMeans(e: Evidence)
    ensures Assessed(View(e), DataInMotion) <==> IsAssessed(e, DataInMotion)
  {
    SomeSeen(e, MOTION_KEYS);
    var ks := MOTION_KEYS;
    if IsAssessed(e, DataInMotion) {
      assert Seen(e, ks[0]) || Seen(e, ks[1]) || Seen(e, ks[2]) || Seen(e, ks[3]) || Seen(e, ks[4]) || Seen(e, ks[5])
             || Seen(e, ks[6]) || Seen(e, ks[7]) || Seen(e, ks[8]) || Seen(e, ks[9]) || Seen(e, ks[10])
             || Seen(e, ks[11]) || Seen(e, ks[12]) || Seen(e, ks[13]);
    }
  }

  lemma AssessedMeans(e: Evidence, d: Domain)
    ensures Assessed(View(e), d) <==> IsAssessed(e, d)
  {
    match d
    case IdentityTrust => IdentityMeans(e);
    case DataAtRest => DarMeans(e);
    case DataInMotion => MotionMeans(e);
    case _ => ViewIs(e, E_PATH);
  }

  // ---------------------------------------------------------------- the report

  lemma SubscoreMeans(c: nat -> real, e: Evidence, d: Domain)
    ensures Nearest(Within(RawValue(c, e, d)), Subscore(Raw(c, COUNT_TERMS, View(e), d)))
  {
    RawMeans(c, e, d);
    RoundNearest(Within(RawValue(c, e, d)), Subscore(Raw(c, COUNT_TERMS, View(e), d)));
  }

  lemma ReportSubscores(c: nat -> real, e: Evidence)
    requires ScoreWith(c, COUNT_TERMS, e).Success?
    ensures SubscoresMean(c, e, ScoreWith(c, COUNT_TERMS, e).value)
  {
    var r := ScoreWith(c, COUNT_TERMS, e).value;
    forall d: Domain
      ensures d in r.subscores <==> IsAssessed(e, d)
      ensures d in r.subscores ==> Nearest(Within(RawValue(c, e, d)), r.subscores[d])
    {
      Listed(d);
      AssessedMeans(e, d);
      SubscoreMeans(c, e, d);
    }
  }

  lemma Listed(d: Domain)
    ensures d in DOMAINS
  {
    match d
    case Hygiene => assert DOMAINS[0] == d;
    case ModernTls => assert DOMAINS[1] == d;
    case IdentityTrust => assert DOMAINS[2] == d;
    case AgilitySignals => assert DOMAINS[3] == d;
    case DataAtRest => assert DOMAINS[4] == d;
    case DataInMotion => assert DOMAINS[5] == d;
  }

  ghost function Chosen(assessed: Domain -> bool, ds: seq<Domain>): set<Domain> {
    set d | d in ds && assessed(d)
  }

  lemma ChosenSnoc(assessed: Domain -> bool, ds: seq<Domain>, d: Domain)
    ensures Chosen(assessed, ds + [d]) == Chosen(assessed, ds) + if assessed(d) then {d} else {}
  {
  }

  lemma {:induction false} CountIsSize(assessed: Domain -> bool, ds: seq<Domain>)
    requires forall i, j :: 0 <= i < j < |ds| ==> ds[i] != ds[j]
    ensures AssessedCount(assessed, ds) == |Chosen(assessed, ds)|
    decreases |ds|
  {
    if |ds| > 0 {
      var n := |ds| - 1;
      CountIsSize(assessed, ds[..n]);
      assert ds == ds[..n] + [ds[n]];
      ChosenSnoc(assessed, ds[..n], ds[n]);
      assert ds[n] !in Chosen(assessed, ds[..n]);
    }
  }

  ghost function Point(assessed: Domain -> bool, raw: Domain -> real, d: Domain): int {
    if assessed(d) then Subscore(raw(d)) else 0
  }

  lemma TotalIs(assessed: Domain -> bool, raw: Domain -> real)
    ensures AssessedTotal(assessed, raw, DOMAINS) ==
            Point(assessed, raw, Hygiene) + Point(assessed, raw, ModernTls) + Point(assessed, raw, IdentityTrust)
            + Point(assessed, raw, AgilitySignals) + Point(assessed, raw, DataAtRest) + Point(assessed, raw, DataInMotion)
  {
    var ds := DOMAINS;
    assert ds[..0] == [] && ds[..1][..0] == ds[..0] && ds[..2][..1] == ds[..1] && ds[..3][..2] == ds[..2];
    assert ds[..4][..3] == ds[..3] && ds[..5][..4] == ds[..4] && ds[..6] == ds;
    assert AssessedTotal(assessed, raw, ds[..1]) == Point(assessed, raw, Hygiene);
    assert AssessedTotal(assessed, raw, ds[..2]) == AssessedTotal(assessed, raw, ds[..1]) + Point(assessed, raw, ModernTls);
    assert AssessedTotal(assessed, raw, ds[..3]) == AssessedTotal(assessed, raw, ds[..2]) + Point(assessed, raw, IdentityTrust);
    assert AssessedTotal(assessed, raw, ds[..4]) == AssessedTotal(assessed, raw, ds[..3]) + Point(assessed, raw, AgilitySignals);
    assert AssessedTotal(assessed, raw, ds[..5]) == AssessedTotal(assessed, raw, ds[..4]) + Point(assessed, raw, DataAtRest);
  }

  lemma CeilingsAre(e: Evidence)
    ensures Sorted(FoundCeilings(e)) == ByFindings(Findings(e, SevCritical), Findings(e, SevHigh)) + ByReadiness(e)
  {
    SeverityIs(e, SevCritical);
    SeverityIs(e, SevHigh);
    ViewIs(e, PQC_KEX_PATH);
    var a, b := ByFindings(Findings(e, SevCritical), Findings(e, SevHigh)), ByReadiness(e);
    assert FoundCeilings(e) == a + b;
    SortedPair(a, b);
  }

  lemma SortedPair(a: seq<Ceiling>, b: seq<Ceiling>)
    requires |a| <= 1 && |b| <= 1 && (|a| == 1 && |b| == 1 ==> a[0].value < b[0].value)
    ensures Sorted(a + b) == a + b
  {
    var cs := a + b;
    if |cs| == 1 {
      assert cs[..0] == [];
    } else if |cs| == 2 {
      assert cs[..1] == [cs[0]] && cs[..1][..0] == [];
      assert Sorted(cs[..1]) == [cs[0]];
      assert cs == [a[0], b[0]];
      assert Insert(cs[1], []) == [cs[1]];
    }
  }

  lemma SizeMeans(raw: Domain -> real, assessed: Domain -> bool)
    ensures AssessedCount(assessed, DOMAINS) == |AssessedSubscores(raw, assessed)|
  {
    CountIsSize(assessed, DOMAINS);
    var m := AssessedSubscores(raw, assessed);
    assert m.Keys == Chosen(assessed, DOMAINS);
    assert |m| == |m.Keys|;
  }

  lemma AverageMeans(total: int, n: nat)
    requires n > 0
    ensures Nearest(total as real / (n as real * 25.0) * 100.0, Average(total, n))
  {
    RoundNearest(total as real / (n as real * DOMAIN_CAP) * 100.0, Average(total, n));
  }

  lemma ComposedMeans(raw: Domain -> real, assessed: Domain -> bool, found: seq<Ceiling>)
    requires Compose(raw, assessed, found).Success?
    ensures ComputedMeans(Compose(raw, assessed, found).value)
  {
    var r := Compose(raw, assessed, found).value;
    SizeMeans(raw, assessed);
    TotalIs(assessed, raw);
    SharesAre(raw, assessed, r);
    AverageMeans(AssessedTotal(assessed, raw, DOMAINS), r.assessed);
  }

  lemma ReportIs(c: nat -> real, e: Evidence)
    requires ScoreWith(c, COUNT_TERMS, e).Success?
    ensures var r := ScoreWith(c, COUNT_TERMS, e).value;
            ComputedMeans(r) && r.ceilings == Sorted(FoundCeilings(e)) && r.emitted == Emitted(r.ceilings, r.computed)
  {
    ComposedMeans(Raws(c, COUNT_TERMS, View(e)), Assessment(View(e)), FoundCeilings(e));
  }

  lemma ScoresAre(e: Evidence, r: Report)
    requires ComputedMeans(r) && r.emitted == Emitted(r.ceilings, r.computed)
    requires r.ceilings == ByFindings(Findings(e, SevCritical), Findings(e, SevHigh)) + ByReadiness(e)
    ensures ScoresMean(e, r)
  {
    EmittedMeans(r);
  }

  lemma ReportScores(c: nat -> real, e: Evidence)
    requires ScoreWith(c, COUNT_TERMS, e).Success?
    ensures ScoresMean(e, ScoreWith(c, COUNT_TERMS, e).value)
  {
    ReportIs(c, e);
    CeilingsAre(e);
    ScoresAre(e, ScoreWith(c, COUNT_TERMS, e).value);
  }

  lemma SharesAre(raw: Domain -> real, assessed: Domain -> bool, r: Report)
    requires r.subscores == AssessedSubscores(raw, assessed)
    ensures forall d :: Share(r, d) == Point(assessed, raw, d)
  {
    forall d ensures Share(r, d) == Point(assessed, raw, d) {
      Listed(d);
    }
  }

  lemma HeadIsThat(cs: seq<Ceiling>, lowest: Ceiling)
    requires 1 <= |cs| <= 2 && (|cs| == 2 ==> cs[0].value < cs[1].value)
    requires lowest in cs && forall x :: x in cs ==> lowest.value <= x.value
    ensures lowest.value == cs[0].value
  {
    assert cs[0] in cs;
  }

  lemma EmittedMeans(r: Report)
    requires r.emitted == Emitted(r.ceilings, r.computed) && |r.ceilings| <= 2
    requires |r.ceilings| == 2 ==> r.ceilings[0].value < r.ceilings[1].value
    ensures r.ceilings == [] ==> r.emitted == r.computed
    ensures forall lowest :: lowest in r.ceilings && (forall x :: x in r.ceilings ==> lowest.value <= x.value) ==>
              Nearest((lowest.value * r.computed) as real / 100.0, r.emitted)
  {
    forall lowest | lowest in r.ceilings && (forall x :: x in r.ceilings ==> lowest.value <= x.value)
      ensures Nearest((lowest.value * r.computed) as real / 100.0, r.emitted)
    {
      HeadIsThat(r.ceilings, lowest);
      RoundNearest((r.ceilings[0].value * r.computed) as real / 100.0, r.emitted);
    }
  }

  lemma AnyAssessed(e: Evidence)
    ensures AssessedCount(Assessment(View(e)), DOMAINS) > 0 <==> exists d: Domain :: IsAssessed(e, d)
  {
    var assessed := Assessment(View(e));
    CountIsSize(assessed, DOMAINS);
    var found := Chosen(assessed, DOMAINS);
    forall d: Domain ensures d in found <==> IsAssessed(e, d) {
      Listed(d);
      AssessedMeans(e, d);
    }
    if |found| > 0 {
      var d :| d in found;
    }
  }

  /** What the scorer is to answer: a report of the evidence, or the first condition for one that fails. */
  ghost predicate Answers(c: nat -> real, e: Evidence, profile: Option<string>, r: Result<Report, Uncovered>) {
    if profile != None && profile != Some("balanced") then r == Failure(ProfileNotSpecified)
    else if AssessableEndpointCount !in e then r == Failure(NoAssessableCount)
    else if forall d: Domain :: !IsAssessed(e, d) then r == Failure(ZeroDomains)
    else r.Success? && Means(c, e, r.value)
  }

  /** The closed form answers so. */
  lemma ClosedFormAnswers(c: nat -> real, e: Evidence, profile: Option<string>)
    ensures Answers(c, e, profile, ClosedForm(c, e, profile))
  {
    AnyAssessed(e);
    if ClosedForm(c, e, profile).Success? {
      ReportSubscores(c, e);
      ReportScores(c, e);
    }
  }
}
