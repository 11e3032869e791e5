/** The evidence a score is computed from: a two-level dictionary of counts. */
module Evidence {

  datatype Key =
    // gates and certificate keys
    | AssessableEndpointCount | CertificateObservations | CertsObserved
    | CertKeyTypeCounts | KeyRsa | KeyEcdsa | KeyPqc
    | PqcHybridEndpointCount | MtlsPresentCount
    | KerberosPlaceholderCount | KerberosScanErrorCount
    // severities
    | ScoredFindingSeverityCounts | FindingSeverityCounts | SevCritical | SevHigh | SevLow
    // hygiene and TLS
    | PlaintextHttpCount | HttpOnTlsPortCount | LegacyTlsCount | ScanError | ScanErrorCount
    // identity and trust
    | ExpiredCount | ExpiringCount | SelfSignedCount
    | IdentityWeakEtypeCount | SamlWeakSigningCount | DnssecWeakAlgoCount
    | SmimeWeakSigningCount | SmimeExpiredCount | SmimeWeakKeyCount
    | AdcsWeakTemplateCount | AdcsMisconfigCount | AdcsWeakSigningCount | AdcsCoverageGapCount
    // agility
    | BearerTokenWeakAlgCount | OpenapiPlaintextServerCount | CodesignWeakAlgoCount | FuzzFindingCount
    // data at rest
    | DarDbPlaintextCount | DarDbWeakSslCount | DarStorageUnencryptedCount | DarStorageAwsManagedCount
    | DarK8sUnencryptedCount | DarK8sInaccessibleCount | DarVaultWeakCount
    // data in motion
    | MotionEmailPlaintextCount | MotionEmailStarttlsMissingCount | MotionEmailWeakCipherCount
    | MotionBrokerPlaintextCount | MotionBrokerWeakTlsCount | MotionBrokerWeakCipherCount
    // protocols
    | ProtocolCounts | ProtoUnknown
    | Kerberos | Saml | Dnssec | Smime | Adcs
    | Postgresql | Mysql | Rds | S3 | AzureBlob | Kubernetes | Vault
    | SmtpStarttls | Smtps | Imaps | ImapStarttls | Pop3s | Pop3Starttls
    | KafkaPlain | KafkaTls | AmqpPlain | Amqps | AmqpsAzureServicebus | HttpsAwsSqs | RedisPlain | RedisTls

  datatype Cell = Null | Count(n: int) | Table(rows: map<Key, int>)

  type Evidence = map<Key, Cell>

  datatype Path = Top(key: Key) | In(table: Key, row: Key)

  function Clamp(n: int): nat {
    if n < 0 then 0 else n
  }

  /** A count at a path; a missing key, a null or a non-table on the way reads 0. */
  function Read(e: Evidence, p: Path): nat {
    match p
    case Top(k) => if k in e && e[k].Count? then Clamp(e[k].n) else 0
    case In(t, k) => if t in e && e[t].Table? && k in e[t].rows then Clamp(e[t].rows[k]) else 0
  }

  /** Overwrite the count at a path, creating the table if there is none. */
  function Write(e: Evidence, p: Path, n: int): Evidence {
    match p
    case Top(k) => e[k := Count(n)]
    case In(t, k) => e[t := Table((if t in e && e[t].Table? then e[t].rows else map[])[k := n])]
  }

  /** Two paths that share no cell: writing one cannot disturb the other. */
  predicate Apart(p: Path, q: Path) {
    match (p, q)
    case (Top(a), Top(b)) => a != b
    case (In(s, a), In(t, b)) => s != t || a != b
    case (Top(a), In(t, _)) => a != t
    case (In(t, _), Top(a)) => a != t
  }

  lemma ReadWrite(e: Evidence, p: Path, n: nat, q: Path)
    requires q == p || Apart(p, q)
    ensures Read(Write(e, p, n), q) == if q == p then n else Read(e, q)
  {
  }
}
