/** `buildProductionEvidenceManifest` and `verifyProductionEvidenceManifest`
    (scripts/production-evidence-manifest.ts).

    The schemas turn fifteen JSON receipts into a `ReceiptSet`; URL parsing, time formats, digests and
    signatures are uninterpreted fields of `Platform`. Times are integer milliseconds. */
module EvidenceManifest {
  import opened Wrappers
  import opened JsonText
  import opened CanonicalJson
  import opened AuditProtocol
  import opened ReleaseControls
  import SR = SnapshotReceipt

  datatype PerEvidence<T> = PerEvidence(
    staging: T, appActionExactlyOnce: T, marketplace: T, cliSessions: T, cliAdmin: T,
    marketplaceReleaseRevocation: T, workloadIssuerRotation: T, appEvidenceHealth: T,
    appSnapshotFenceProbe: T, learningEntities: T, appSnapshots: T, appSnapshotRecovery: T,
    appSnapshotReconciliation: T, recovery: T, auditRetention: T)
  {
    function Of(e: Evidence): T {
      match e
      case Staging => staging
      case AppActionExactlyOnce => appActionExactlyOnce
      case Marketplace => marketplace
      case CliSessions => cliSessions
      case CliAdmin => cliAdmin
      case MarketplaceReleaseRevocation => marketplaceReleaseRevocation
      case WorkloadIssuerRotation => workloadIssuerRotation
      case AppEvidenceHealth => appEvidenceHealth
      case AppSnapshotFenceProbe => appSnapshotFenceProbe
      case LearningEntities => learningEntities
      case AppSnapshots => appSnapshots
      case AppSnapshotRecovery => appSnapshotRecovery
      case AppSnapshotReconciliation => appSnapshotReconciliation
      case Recovery => recovery
      case AuditRetention => auditRetention
    }
  }

  const ORDER: seq<Evidence> := [
    Staging, AppActionExactlyOnce, Marketplace, CliSessions, CliAdmin, MarketplaceReleaseRevocation,
    WorkloadIssuerRotation, AppEvidenceHealth, AppSnapshotFenceProbe, LearningEntities, AppSnapshots,
    AppSnapshotRecovery, AppSnapshotReconciliation, Recovery, AuditRetention]

  // ----- inputs

  datatype App = App(id: string, version: string, artifactDigest: string)

  datatype Payload = Payload(artifactDigest: string, filesDigest: string)

  /** What every parsed receipt has. Fields a receipt kind lacks are not consulted for it. */
  datatype Common = Common(
    value: Json, summary: Json, completedAt: string, origin: string,
    organizationId: string, projectKey: string, controls: seq<Control>, auditHead: Head)

  datatype ReceiptSet = ReceiptSet(
    each: PerEvidence<Common>,
    allowedRequests: int, quotaLimit: int, sourceCommit: string, app: App, revokedArtifact: string,
    cliReplica: string, rotationReplica: string, rotationScope: seq<string>,
    fenceScope: string, learningScope: string,
    payload: Payload, restored: Payload, restoreOrigin: string, restoreStartedAt: string,
    reconciliation: SR.ReconciliationReceipt,
    sourceIdentity: string, targetIdentity: string, recoveredTables: seq<string>,
    drain: DrainReceipt)

  datatype Config = Config(
    repository: string, commitSha: string, workflowRunId: string, workflowRunAttempt: nat,
    deploymentOrigin: string, storageOrigin: string, restoreOrigin: string,
    organizationId: string, projectKey: string, databaseIdentity: string, app: App,
    expectedInventoryDigest: string, expectedRevokedArtifact: string, expectedRotationScope: string,
    keyId: string, publicKey: string, maximumAgeMinutes: int)

  datatype Platform = Platform(
    parse: PerEvidence<Json> -> Result<ReceiptSet, Evidence>,
    manifestSchema: Manifest -> bool,
    configFormats: Config -> bool,
    parseTime: string -> Option<int>, printTime: int -> string,
    trustedOrigin: string -> Option<string>, lower: string -> string,
    sha: Text -> string, appDigest: seq<string> -> string,
    isEd25519: string -> bool, publicKeyDigest: string -> string,
    crypto: Crypto, digests: SR.Digests,
    recoveryTables: seq<string>)

  // ----- the manifest

  datatype Release = Release(
    repository: string, commitSha: string, workflowRunId: string, workflowRunAttempt: nat,
    deploymentOrigin: string, generatedAt: string)

  datatype Scope = Scope(
    organizationId: string, projectKey: string, databaseIdentity: string, app: App,
    inventoryDigest: string, fenceScope: string, learningScope: string,
    keyId: string, publicKeyDigest: string)

  datatype Descriptor = Descriptor(digest: string, completedAt: string, summary: Json)

  datatype Manifest = Manifest(
    release: Release, scope: Scope, evidence: PerEvidence<Descriptor>, evidenceSetDigest: string)

  datatype ManifestError =
    | UntrustedOrigin | ReceiptRefused(e: Evidence) | ConfigInvalid | KeyNotEd25519
    | Stale(e: Evidence) | ManifestStale | WrongOrigin | WrongScope | WrongIdentity
    | QuotaNotConsumed | Controls(e: Evidence)
    | CheckpointsNotProved | AckNotBound | AckKeyUnexpected | AckUnsigned
    | ManifestInvalid | ManifestMismatch | UpstreamDigestMismatch

  // ----- manifest JSON

  /** The code units of a field name. The names are ASCII, one unit a character. */
  function Name(s: string): (r: Text)
    ensures |r| == |s|
    ensures |s| > 0 ==> r[0] == (s[0] as int) % 0x1_0000
  {
    seq(|s|, i requires 0 <= i < |s| => (s[i] as int) % 0x1_0000)
  }

  function Field(name: string, value: Json): Member { Member(Name(name), value) }

  /** UTF-16: characters above the basic plane become a surrogate pair. */
  function Utf16(s: string): Text {
    if s == "" then []
    else
      var c := s[0] as int;
      (if c < 0x1_0000 then [c] else [0xD800 + (c - 0x1_0000) / 0x400, 0xDC00 + (c - 0x1_0000) % 0x400])
      + Utf16(s[1..])
  }

  function Text16(s: string): Json { Str(Utf16(s)) }

  function DecimalOf(n: nat): Text {
    if n < 10 then [0x30 + n] else DecimalOf(n / 10) + [0x30 + n % 10]
  }

  function ReleaseJson(r: Release): Json {
    Obj([Field("repository", Text16(r.repository)), Field("commitSha", Text16(r.commitSha)),
         Field("workflowRunId", Text16(r.workflowRunId)),
         Field("workflowRunAttempt", Number(DecimalOf(r.workflowRunAttempt))),
         Field("deploymentOrigin", Text16(r.deploymentOrigin)), Field("generatedAt", Text16(r.generatedAt))])
  }

  function AppJson(a: App): Json {
    Obj([Field("id", Text16(a.id)), Field("version", Text16(a.version)),
         Field("artifactDigest", Text16(a.artifactDigest))])
  }

  function TrustJson(keyId: string, publicKeyDigest: string): Json {
    Obj([Field("keyId", Text16(keyId)), Field("publicKeyDigest", Text16(publicKeyDigest))])
  }

  function ScopeJson(s: Scope): Json {
    Obj([Field("organizationId", Text16(s.organizationId)), Field("projectKey", Text16(s.projectKey)),
         Field("databaseIdentityDigest", Text16(s.databaseIdentity)),
         Field("marketplaceApp", AppJson(s.app)),
         Field("appSnapshotRetention", Obj([Field("unreferencedInventoryDigest", Text16(s.inventoryDigest))])),
         Field("appSnapshotFenceProbe", Obj([Field("scopeDigest", Text16(s.fenceScope))])),
         Field("learningEntityProbe", Obj([Field("scopeDigest", Text16(s.learningScope))])),
         Field("auditRetentionTrust", TrustJson(s.keyId, s.publicKeyDigest))])
  }

  function DescriptorJson(d: Descriptor): Json {
    Obj([Field("digest", Text16(d.digest)), Field("completedAt", Text16(d.completedAt)),
         Field("summary", d.summary)])
  }

  function KeyOf(e: Evidence): string {
    match e
    case Staging => "staging"
    case AppActionExactlyOnce => "appActionExactlyOnce"
    case Marketplace => "marketplace"
    case CliSessions => "cliSessions"
    case CliAdmin => "cliAdmin"
    case MarketplaceReleaseRevocation => "marketplaceReleaseRevocation"
    case WorkloadIssuerRotation => "workloadIssuerRotation"
    case AppEvidenceHealth => "appEvidenceHealth"
    case AppSnapshotFenceProbe => "appSnapshotFenceProbe"
    case LearningEntities => "learningEntities"
    case AppSnapshots => "appSnapshots"
    case AppSnapshotRecovery => "appSnapshotRecovery"
    case AppSnapshotReconciliation => "appSnapshotReconciliation"
    case Recovery => "recovery"
    case AuditRetention => "auditRetention"
  }

  function EvidenceMembers(evidence: PerEvidence<Descriptor>): (r: seq<Member>)
    ensures |r| == |ORDER|
    ensures forall i :: 0 <= i < |ORDER| ==> r[i] == Field(KeyOf(ORDER[i]), DescriptorJson(evidence.Of(ORDER[i])))
  {
    seq(|ORDER|, i requires 0 <= i < |ORDER| => Field(KeyOf(ORDER[i]), DescriptorJson(evidence.Of(ORDER[i]))))
  }

  /** What `evidenceSetDigest` is taken over. */
  function EvidenceSetJson(release: Release, scope: Scope, evidence: PerEvidence<Descriptor>): Json {
    Obj([Field("release", ReleaseJson(release)), Field("scope", ScopeJson(scope)),
         Field("evidence", Obj(EvidenceMembers(evidence)))])
  }

  function ManifestMembers(m: Manifest): (r: seq<Member>)
    ensures |r| == 5
  {
    [Field("schemaVersion", Text16("loopgraph-production-promotion-evidence/v16")),
     Field("release", ReleaseJson(m.release)), Field("scope", ScopeJson(m.scope)),
     Field("evidence", Obj(EvidenceMembers(m.evidence))),
     Field("evidenceSetDigest", Text16(m.evidenceSetDigest))]
  }

  function ManifestJson(m: Manifest): Json { Obj(ManifestMembers(m)) }

  // ----- the checks of build, in order

  /** `requireFreshEvidence`. */
  predicate Fresh(p: Platform, time: string, now: int, maximumAgeMinutes: int) {
    var t := p.parseTime(time);
    t.Some? && -(CLOCK_SKEW as int) <= now - t.value <= maximumAgeMinutes * 60_000
  }

  /** The schemas, with the refinements that the rest of the model defines. */
  function Parse(p: Platform, inputs: PerEvidence<Json>): Result<ReceiptSet, ManifestError> {
    match p.parse(inputs)
    case Err(e) => Err(ReceiptRefused(e))
    case Ok(s) =>
      if !SR.GateAccepts(p.digests, s.reconciliation) then Err(ReceiptRefused(AppSnapshotReconciliation))
      else if !ReceiptSchemaHolds(s.drain) || s.drain.checkpoints.None? then Err(ReceiptRefused(AuditRetention))
      else Ok(s)
  }

  predicate ConfigValid(p: Platform, config: Config) {
    p.configFormats(config) && p.trustedOrigin(config.storageOrigin).Some?
    && 5 <= config.maximumAgeMinutes <= 1_440
  }

  predicate FromDeployment(p: Platform, s: ReceiptSet, origin: string) {
    && s.each.staging.origin == origin && s.each.marketplace.origin == origin
    && s.each.appEvidenceHealth.origin == origin && s.drain.sourceOrigin == origin
    && p.trustedOrigin(s.each.cliSessions.origin) == Some(origin)
    && p.trustedOrigin(s.each.cliAdmin.origin) == Some(origin)
    && p.trustedOrigin(s.each.marketplaceReleaseRevocation.origin) == Some(origin)
    && p.trustedOrigin(s.each.workloadIssuerRotation.origin) == Some(origin)
  }

  predicate DistinctReplicas(p: Platform, s: ReceiptSet, origin: string) {
    && p.trustedOrigin(s.cliReplica).Some? && p.trustedOrigin(s.cliReplica) != Some(origin)
    && p.trustedOrigin(s.rotationReplica).Some? && p.trustedOrigin(s.rotationReplica) != Some(origin)
  }

  function ProbeScope(p: Platform, origin: string, config: Config, probe: string): string {
    p.appDigest([origin, p.lower(config.organizationId), probe])
  }

  /** Storage, probes, restore and reconciliation belong to the protected storage and tenant. */
  predicate StorageBound(p: Platform, s: ReceiptSet, config: Config) {
    var storage := s.each.appSnapshots.origin;
    && p.trustedOrigin(config.storageOrigin) == Some(storage)
    && s.fenceScope == ProbeScope(p, storage, config, "fence_probe")
    && s.learningScope == ProbeScope(p, storage, config, "learning_probe")
    && s.each.appSnapshotRecovery.origin == storage
    && p.trustedOrigin(config.restoreOrigin) == Some(s.restoreOrigin)
    && storage != s.restoreOrigin
    && s.restored == s.payload
    && (var started, completed := p.parseTime(s.restoreStartedAt), p.parseTime(s.each.appSnapshotRecovery.completedAt);
        started.Some? && completed.Some? ==> started.value <= completed.value)
    && s.reconciliation.scopeDigest == p.appDigest([storage, config.organizationId, config.projectKey])
    && s.reconciliation.unreferencedInventoryDigest == config.expectedInventoryDigest
  }

  const TENANT_BOUND: seq<Evidence> := [
    Staging, Marketplace, CliSessions, CliAdmin, MarketplaceReleaseRevocation, WorkloadIssuerRotation,
    AppEvidenceHealth, AppSnapshots, AppSnapshotRecovery]

  predicate TenantBound(s: ReceiptSet, config: Config) {
    && (forall e :: e in TENANT_BOUND ==>
          s.each.Of(e).organizationId == config.organizationId && s.each.Of(e).projectKey == config.projectKey)
    && s.drain.organizationId == config.organizationId && s.drain.projectKey == config.projectKey
  }

  predicate IdentitiesBound(p: Platform, s: ReceiptSet, config: Config) {
    && s.app == config.app
    && s.revokedArtifact == config.expectedRevokedArtifact
    && p.appDigest(s.rotationScope) == config.expectedRotationScope
    && s.sourceIdentity == config.databaseIdentity
    && s.sourceIdentity != s.targetIdentity
  }

  function CheckNames(checks: seq<SR.Check>): seq<string> {
    seq(|checks|, i requires 0 <= i < |checks| => checks[i].name)
  }

  function CheckpointNames(checkpoints: seq<Checkpoint>): (r: seq<string>)
    ensures |r| == |checkpoints| && forall i :: 0 <= i < |r| ==> r[i] == checkpoints[i].name
  {
    seq(|checkpoints|, i requires 0 <= i < |checkpoints| => checkpoints[i].name)
  }

  /** The evidence kinds checked against the lists of `ReleaseControls`, in order. */
  const CONTROLLED: seq<Evidence> := [
    Staging, Marketplace, CliSessions, CliAdmin, MarketplaceReleaseRevocation, WorkloadIssuerRotation,
    AppEvidenceHealth, AppSnapshotFenceProbe, LearningEntities, AppSnapshots, AppSnapshotRecovery]

  function ControlVerdict(s: ReceiptSet, kinds: seq<Evidence>): Option<ManifestError> {
    if kinds == [] then None
    else if !ControlsHold(kinds[0], s.each.Of(kinds[0]).controls) then Some(Controls(kinds[0]))
    else if kinds[0].Staging? && s.allowedRequests != s.quotaLimit then Some(QuotaNotConsumed)
    else ControlVerdict(s, kinds[1..])
  }

  function ListVerdict(p: Platform, s: ReceiptSet): Option<ManifestError>
    requires s.drain.checkpoints.Some?
  {
    if !ExactNames(CheckNames(s.reconciliation.checks), SR.CHECK_NAMES) then Some(Controls(AppSnapshotReconciliation))
    else if !ExactNames(s.recoveredTables, p.recoveryTables) then Some(Controls(Recovery))
    else if !ExactNames(CheckpointNames(s.drain.checkpoints.value), RELEASE_CHECKPOINT_NAMES)
    then Some(Controls(AuditRetention))
    else None
  }

  function FindCheckpoint(checkpoints: seq<Checkpoint>, name: string): Option<Checkpoint> {
    if checkpoints == [] then None
    else if checkpoints[0].name == name then Some(checkpoints[0])
    else FindCheckpoint(checkpoints[1..], name)
  }

  predicate Retains(checkpoints: seq<Checkpoint>, name: string, head: Head) {
    var c := FindCheckpoint(checkpoints, name);
    c.Some? && c.value.sequence == head.sequence && c.value.hash == head.hash
  }

  predicate InInterval(c: Checkpoint, drain: DrainReceipt) {
    drain.fromSequence <= c.sequence <= drain.throughSequence
  }

  /** The drain retained the audit head of every control that ran before the release. */
  predicate CheckpointsProved(s: ReceiptSet)
    requires s.drain.checkpoints.Some?
  {
    var retained := s.drain.checkpoints.value;
    && Retains(retained, "staging", s.each.staging.auditHead)
    && Retains(retained, "marketplace", s.each.marketplace.auditHead)
    && Retains(retained, "app_evidence_health", s.each.appEvidenceHealth.auditHead)
    && Retains(retained, "cli_sessions", s.each.cliSessions.auditHead)
    && Retains(retained, "cli_admin", s.each.cliAdmin.auditHead)
    && Retains(retained, "marketplace_release_revocation", s.each.marketplaceReleaseRevocation.auditHead)
    && Retains(retained, "workload_issuer_rotation", s.each.workloadIssuerRotation.auditHead)
    && forall c :: c in retained ==> InInterval(c, s.drain)
  }

  /** The drain receipt is bound to a signed acknowledgement of its last event. */
  function AckBinding(p: Platform, drain: DrainReceipt, config: Config): Option<ManifestError> {
    match drain.lastDestinationAcknowledgement
    case None => Some(AckNotBound)
    case Some(ack) =>
      if drain.lastDestinationReceiptDigest != Some(p.crypto.receiptDigest(ack))
         || ack.statement.organizationId != config.organizationId
         || ack.statement.projectKey != config.projectKey
         || ack.statement.lastSequence != drain.throughSequence
         || ack.statement.lastEventHash != drain.headHash
      then Some(AckNotBound)
      else if ack.keyId != config.keyId then Some(AckKeyUnexpected)
      else if !p.crypto.verifies(config.publicKey, (ack.statement, ack.keyId), ack.signature)
      then Some(AckUnsigned)
      else None
  }

  function FirstStale(p: Platform, s: ReceiptSet, now: int, maximumAgeMinutes: int, kinds: seq<Evidence>)
    : Option<ManifestError>
  {
    if kinds == [] then None
    else if !Fresh(p, s.each.Of(kinds[0]).completedAt, now, maximumAgeMinutes) then Some(Stale(kinds[0]))
    else FirstStale(p, s, now, maximumAgeMinutes, kinds[1..])
  }

  /** Everything build checks on parsed receipts, for a deployment origin. */
  function ReceiptsVerdict(p: Platform, s: ReceiptSet, config: Config, origin: string, generatedAt: int)
    : Option<ManifestError>
    requires s.drain.checkpoints.Some?
  {
    if !ConfigValid(p, config) then Some(ConfigInvalid)
    else if !p.isEd25519(config.publicKey) then Some(KeyNotEd25519)
    else
      var stale := FirstStale(p, s, generatedAt, config.maximumAgeMinutes, ORDER);
      if stale.Some? then stale
      else if !FromDeployment(p, s, origin) || !DistinctReplicas(p, s, origin) then Some(WrongOrigin)
      else if !StorageBound(p, s, config) || s.sourceCommit != config.commitSha || !TenantBound(s, config)
      then Some(WrongScope)
      else if !IdentitiesBound(p, s, config) then Some(WrongIdentity)
      else
        var controls := ControlVerdict(s, CONTROLLED);
        if controls.Some? then controls
        else
          var lists := ListVerdict(p, s);
          if lists.Some? then lists
          else if !CheckpointsProved(s) then Some(CheckpointsNotProved)
          else AckBinding(p, s.drain, config)
  }

  // ----- build and verify

  function DescriptorOf(p: Platform, c: Common): Descriptor {
    Descriptor(p.sha(CanonicalText(c.value)), c.completedAt, c.summary)
  }

  function DescriptorsOf(p: Platform, each: PerEvidence<Common>): (r: PerEvidence<Descriptor>)
    ensures forall e :: r.Of(e) == DescriptorOf(p, each.Of(e))
  {
    PerEvidence(
      DescriptorOf(p, each.staging), DescriptorOf(p, each.appActionExactlyOnce),
      DescriptorOf(p, each.marketplace), DescriptorOf(p, each.cliSessions), DescriptorOf(p, each.cliAdmin),
      DescriptorOf(p, each.marketplaceReleaseRevocation), DescriptorOf(p, each.workloadIssuerRotation),
      DescriptorOf(p, each.appEvidenceHealth), DescriptorOf(p, each.appSnapshotFenceProbe),
      DescriptorOf(p, each.learningEntities), DescriptorOf(p, each.appSnapshots),
      DescriptorOf(p, each.appSnapshotRecovery), DescriptorOf(p, each.appSnapshotReconciliation),
      DescriptorOf(p, each.recovery), DescriptorOf(p, each.auditRetention))
  }

  function ReleaseOf(p: Platform, config: Config, origin: string, generatedAt: int): Release {
    Release(config.repository, config.commitSha, config.workflowRunId, config.workflowRunAttempt,
            origin, p.printTime(generatedAt))
  }

  function ScopeFor(p: Platform, s: ReceiptSet, config: Config): Scope {
    var storage := s.each.appSnapshots.origin;
    Scope(config.organizationId, config.projectKey, config.databaseIdentity, config.app,
          config.expectedInventoryDigest, ProbeScope(p, storage, config, "fence_probe"),
          ProbeScope(p, storage, config, "learning_probe"), config.keyId, p.publicKeyDigest(config.publicKey))
  }

  function Assemble(p: Platform, s: ReceiptSet, config: Config, origin: string, generatedAt: int): Manifest {
    var release, scope := ReleaseOf(p, config, origin, generatedAt), ScopeFor(p, s, config);
    var evidence := DescriptorsOf(p, s.each);
    Manifest(release, scope, evidence, p.sha(CanonicalText(EvidenceSetJson(release, scope, evidence))))
  }

  function Build(p: Platform, inputs: PerEvidence<Json>, config: Config, generatedAt: int)
    : Result<Manifest, ManifestError>
  {
    match p.trustedOrigin(config.deploymentOrigin)
    case None => Err(UntrustedOrigin)
    case Some(origin) =>
      match Parse(p, inputs)
      case Err(e) => Err(e)
      case Ok(s) =>
        match ReceiptsVerdict(p, s, config, origin, generatedAt)
        case Some(e) => Err(e)
        case None =>
          var m := Assemble(p, s, config, origin, generatedAt);
          if p.manifestSchema(m) then Ok(m) else Err(ManifestInvalid)
  }

  /** `expectedDigest` is empty when no upstream digest was given. */
  function Verify(p: Platform, m: Manifest, inputs: PerEvidence<Json>, config: Config, now: int,
                  expectedDigest: string): Result<Manifest, ManifestError>
  {
    if !p.manifestSchema(m) then Err(ManifestInvalid)
    else if !Fresh(p, m.release.generatedAt, now, config.maximumAgeMinutes) then Err(ManifestStale)
    else match Parse(p, inputs)
      case Err(e) => Err(e)
      case Ok(s) =>
        var stale := FirstStale(p, s, now, config.maximumAgeMinutes, ORDER);
        if stale.Some? then Err(stale.value)
        else match Build(p, inputs, config, p.parseTime(m.release.generatedAt).value)
          case Err(e) => Err(e)
          case Ok(rebuilt) =>
            if CanonicalText(ManifestJson(rebuilt)) != CanonicalText(ManifestJson(m)) then Err(ManifestMismatch)
            else if expectedDigest != "" && expectedDigest != m.evidenceSetDigest then Err(UpstreamDigestMismatch)
            else Ok(m)
  }
}
