/** Outputs of the drain and of the snapshot reconciliation at the manifest's gates. */
module ManifestGates {
  import opened Wrappers
  import opened AuditProtocol
  import opened ReleaseControls
  import opened EvidenceManifest
  import opened ManifestTheorems
  import opened DrainSafety
  import opened DrainTheorems
  import AD = AuditDrain
  import SS = SnapshotStore
  import SN = SnapshotReconciliation
  import SR = SnapshotReceipt

  // ----- release checkpoints

  /** A valid checkpoint set passes the exact-name check, and looking a name up finds its one checkpoint. */
  lemma CheckpointSetIsExact(checkpoints: seq<Checkpoint>)
    requires CheckpointSetSchema(checkpoints)
    ensures ExactNames(CheckpointNames(checkpoints), RELEASE_CHECKPOINT_NAMES)
  {
    hide RELEASE_CHECKPOINT_NAMES;
    var names := CheckpointNames(checkpoints);
    DistinctIff(names);
    forall name | name in RELEASE_CHECKPOINT_NAMES ensures name in names {
      var c :| c in checkpoints && c.name == name;
      var i :| 0 <= i < |checkpoints| && checkpoints[i] == c;
      assert names[i] == name;
    }
  }

  lemma {:induction false} FindCheckpointIff(checkpoints: seq<Checkpoint>, name: string, head: Head)
    requires DistinctNames(checkpoints)
    ensures Retains(checkpoints, name, head) <==> Checkpoint(name, head.sequence, head.hash) in checkpoints
  {
    if checkpoints == [] {
    } else {
      var first, rest := checkpoints[0], checkpoints[1..];
      assert checkpoints == [first] + rest;
      FindCheckpointIff(rest, name, head);
    }
  }

  /** The drain was told to prove, under each name, the audit head of the receipt of that name. */
  ghost predicate ConfiguredFor(checkpoints: seq<Checkpoint>, s: ReceiptSet) {
    && Watches(checkpoints, "staging", s.each.staging.auditHead)
    && Watches(checkpoints, "marketplace", s.each.marketplace.auditHead)
    && Watches(checkpoints, "app_evidence_health", s.each.appEvidenceHealth.auditHead)
    && Watches(checkpoints, "cli_sessions", s.each.cliSessions.auditHead)
    && Watches(checkpoints, "cli_admin", s.each.cliAdmin.auditHead)
    && Watches(checkpoints, "marketplace_release_revocation", s.each.marketplaceReleaseRevocation.auditHead)
    && Watches(checkpoints, "workload_issuer_rotation", s.each.workloadIssuerRotation.auditHead)
  }

  ghost predicate Watches(checkpoints: seq<Checkpoint>, name: string, head: Head) {
    Checkpoint(name, head.sequence, head.hash) in checkpoints
  }

  lemma ConfiguredForIff(checkpoints: seq<Checkpoint>, s: ReceiptSet)
    requires DistinctNames(checkpoints)
    requires s.drain.checkpoints == Some(checkpoints)
    requires forall c :: c in checkpoints ==> InInterval(c, s.drain)
    ensures CheckpointsProved(s) <==> ConfiguredFor(checkpoints, s)
  {
    hide Retains;
    FindCheckpointIff(checkpoints, "staging", s.each.staging.auditHead);
    FindCheckpointIff(checkpoints, "marketplace", s.each.marketplace.auditHead);
    FindCheckpointIff(checkpoints, "app_evidence_health", s.each.appEvidenceHealth.auditHead);
    FindCheckpointIff(checkpoints, "cli_sessions", s.each.cliSessions.auditHead);
    FindCheckpointIff(checkpoints, "cli_admin", s.each.cliAdmin.auditHead);
    FindCheckpointIff(checkpoints, "marketplace_release_revocation", s.each.marketplaceReleaseRevocation.auditHead);
    FindCheckpointIff(checkpoints, "workload_issuer_rotation", s.each.workloadIssuerRotation.auditHead);
  }

  /** At the manifest, the receipt of a finished drain always passes the schema, the exact-name check and
      the interval check: its checkpoints are refused only when the drain was configured with other
      audit heads than the receipts report. */
  lemma DrainCheckpointsAtGate(config: AD.Config, crypto: Crypto, env: AD.Environment,
                               receipt: DrainReceipt, log: AD.Log, s: ReceiptSet)
    requires config.previous.Some? ==> ReceiptSchemaHolds(config.previous.value)
    requires AD.Drain(config, crypto, env) == AD.Finished(receipt, log)
    requires s.drain == receipt
    ensures ReceiptSchemaHolds(receipt) && receipt.checkpoints == Some(config.checkpoints)
    ensures ExactNames(CheckpointNames(config.checkpoints), RELEASE_CHECKPOINT_NAMES)
    ensures forall c :: c in config.checkpoints ==> InInterval(c, receipt)
    ensures CheckpointsProved(s) <==> ConfiguredFor(config.checkpoints, s)
  {
    hide AD.Drain, SafeLog, ConfiguredFor, CheckpointsProved;
    EveryDrainIsSafe(config, crypto, env);
    CheckpointSetIsExact(config.checkpoints);
    ConfiguredForIff(config.checkpoints, s);
  }

  // ----- the acknowledgement

  /** The seed's acknowledgement is one of this tenant, signed under the release key. */
  ghost predicate SeedSignedFor(config: AD.Config, p: Platform, release: Config) {
    var seed := AD.StartAcknowledgement(config);
    && seed.Some?
    && seed.value.statement.organizationId == release.organizationId
    && seed.value.statement.projectKey == release.projectKey
    && seed.value.keyId == release.keyId
    && p.crypto.verifies(release.publicKey, (seed.value.statement, seed.value.keyId), seed.value.signature)
  }

  /** A finished drain's receipt is bound to its signed acknowledgement, for a manifest with the same
      tenant and trust anchor, exactly when the pinned head was the last drained event and, if the drain
      sent nothing, the acknowledgement it carries on is one of this tenant under the release key. */
  lemma DrainAckAtGate(config: AD.Config, crypto: Crypto, env: AD.Environment, receipt: DrainReceipt, log: AD.Log,
                       trustedKeys: map<string, string>, parsedAt: int, p: Platform, release: Config)
    requires SeedAccepted(config, crypto, trustedKeys, parsedAt)
    requires AD.Drain(config, crypto, env) == AD.Finished(receipt, log)
    requires p.crypto == crypto && release.keyId == config.keyId && release.publicKey == config.publicKey
    requires release.organizationId == config.organizationId && release.projectKey == config.projectKey
    ensures AckBinding(p, receipt, release).None? <==>
      && receipt.throughSequence == LastSequence(receipt.fromSequence, EventsOf(log.posted))
      && (log.posted == [] ==> SeedSignedFor(config, p, release))
  {
    hide AD.Drain, ReceiptVerdict;
    SeedHasSchema(config, crypto, trustedKeys, parsedAt);
    EveryDrainIsSafe(config, crypto, env);
    if log.posted == [] {
      CarriedAckAtGate(config, crypto, receipt, log, trustedKeys, parsedAt, p, release);
    } else {
      FreshAckAtGate(config, crypto, receipt, log, p, release);
    }
  }

  lemma SeedHasSchema(config: AD.Config, crypto: Crypto, trustedKeys: map<string, string>, parsedAt: int)
    requires SeedAccepted(config, crypto, trustedKeys, parsedAt)
    ensures config.previous.Some? ==> ReceiptSchemaHolds(config.previous.value)
  {
    hide ReceiptSchemaHolds;
  }

  lemma FreshAckAtGate(config: AD.Config, crypto: Crypto, receipt: DrainReceipt, log: AD.Log, p: Platform,
                       release: Config)
    requires Truthful(config, crypto, receipt, log) && log.posted != []
    requires p.crypto == crypto && release.keyId == config.keyId && release.publicKey == config.publicKey
    requires release.organizationId == config.organizationId && release.projectKey == config.projectKey
    ensures AckBinding(p, receipt, release).None? <==>
      receipt.throughSequence == LastSequence(receipt.fromSequence, EventsOf(log.posted))
  {
    hide SafeLog, Extends, ReceiptSchemaHolds, Within, EventsOf;
    AckInScope(config, crypto, log);
    LastAckEndsLog(config, crypto, log);
  }

  lemma CarriedAckAtGate(config: AD.Config, crypto: Crypto, receipt: DrainReceipt, log: AD.Log,
                         trustedKeys: map<string, string>, parsedAt: int, p: Platform, release: Config)
    requires SeedAccepted(config, crypto, trustedKeys, parsedAt)
    requires Truthful(config, crypto, receipt, log) && log.posted == []
    requires p.crypto == crypto
    ensures AckBinding(p, receipt, release).None? <==>
      receipt.throughSequence == receipt.fromSequence && SeedSignedFor(config, p, release)
    ensures EventsOf(log.posted) == []
  {
    hide SafeLog, ReceiptSchemaHolds, Within, PageEvents;
  }

  lemma AckInScope(config: AD.Config, crypto: Crypto, log: AD.Log)
    requires SafeLog(config, crypto, log) && |log.acks| == |log.posted| > 0
    ensures var statement := log.acks[|log.acks| - 1].statement;
      statement.organizationId == config.organizationId && statement.projectKey == config.projectKey
  {
    var n := |log.posted| - 1;
    assert AckAnswers(config, crypto, log, n) && BatchContinues(config, crypto, log, n);
  }

  // ----- the reconciliation

  /** A reconciliation receipt passes both the manifest's schema and its exact-name check exactly when it
      says it is healthy. */
  lemma ReconciliationAtGate(d: SR.Digests, policy: SR.Policy, r: SS.Reader, start: nat,
                             digest: (nat, SN.PassData) -> string, stable: SN.Stable)
    requires SS.Fenced(r) && forall c: nat :: SR.WellFormed(r.history(c))
    requires SN.StableFrom(r, start, 0, None, digest) == Ok(stable)
    ensures
      (SR.GateAccepts(d, SR.ReceiptOf(d, policy, stable))
       && ExactNames(CheckNames(SR.ReceiptOf(d, policy, stable).checks), SR.CHECK_NAMES))
      <==> SR.ReceiptOf(d, policy, stable).healthy
  {
    hide SN.StableFrom, SR.GateAccepts, ExactNames;
    SR.GateAcceptsIffHealthy(d, policy, r, start, digest, stable);
    var names := CheckNames(SR.ReceiptOf(d, policy, stable).checks);
    assert names == SR.CHECK_NAMES;
    CheckNamesDistinct();
    ExactNamesIff(names, SR.CHECK_NAMES);
  }
}
