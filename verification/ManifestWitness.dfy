/** Evidence that `build` accepts, so that the theorems about successful builds are not empty. */
module ManifestWitness {
  import opened Wrappers
  import opened JsonText
  import opened CanonicalJson
  import opened TextFidelity
  import opened AuditProtocol
  import opened ReleaseControls
  import opened EvidenceManifest
  import opened ManifestBinding
  import opened ManifestTheorems
  import opened ManifestGates
  import opened DrainTheorems
  import SN = SnapshotReconciliation
  import SR = SnapshotReceipt

  function PassingControls(e: Evidence): (r: seq<Control>)
    ensures |r| == |Required(e)|
    ensures forall i :: 0 <= i < |r| ==> r[i] == Control(Required(e)[i], PassingStatus(e, Required(e)[i]))
  {
    seq(|Required(e)|, i requires 0 <= i < |Required(e)| => Control(Required(e)[i], PassingStatus(e, Required(e)[i])))
  }

  function PassingStatus(e: Evidence, name: ControlName): Option<int> {
    if Allowed(e, name) == [] then None else Allowed(e, name)[0]
  }

  lemma RequiredHaveStatus(e: Evidence)
    requires HasStatusTable(e)
    ensures forall i :: 0 <= i < |Required(e)| ==> Allowed(e, Required(e)[i]) != []
  {
    match e
    case _ =>
  }

  lemma PassingControlsHold(e: Evidence)
    requires ListedHere(e)
    ensures ControlsHold(e, PassingControls(e))
  {
    hide Required, Allowed, ControlsHold;
    var controls := PassingControls(e);
    assert NamesOf(controls) == Required(e);
    if HasStatusTable(e) { RequiredHaveStatus(e); }
    ControlsHoldIff(e, controls);
  }

  /** An organization, and the digests and signatures in use: any, as long as messages can be signed. */
  datatype Setting = Setting(
    org: string, sha: Text -> string, appDigest: seq<string> -> string, lower: string -> string,
    publicKeyDigest: string -> string, crypto: Crypto, digests: SR.Digests, sign: ((Statement, string)) -> string)

  ghost predicate Signs(k: Setting) {
    forall message :: k.crypto.verifies("pem", message, k.sign(message))
  }

  function GenesisAck(k: Setting): Acknowledgement {
    var statement :=
      Statement("receiver", "receipt", 0, k.org, "p", "batch", "digest", None, 0, 0, 1, GENESIS_HASH, 0, 0);
    Acknowledgement(statement, "key", k.sign((statement, "key")))
  }

  function GenesisReceipt(k: Setting): DrainReceipt {
    DrainReceipt(k.org, "p", "d", "destination", 0, 0, 0, 0, 1, 1, GENESIS_HASH,
                 Some(k.crypto.receiptDigest(GenesisAck(k))), Some(GenesisAck(k)), Some(GenesisCheckpoints()))
  }

  function GenesisCheckpoints(): (r: seq<Checkpoint>)
    ensures |r| == |RELEASE_CHECKPOINT_NAMES|
    ensures forall i :: 0 <= i < |r| ==> r[i] == Checkpoint(RELEASE_CHECKPOINT_NAMES[i], 0, GENESIS_HASH)
  {
    seq(|RELEASE_CHECKPOINT_NAMES|, i requires 0 <= i < |RELEASE_CHECKPOINT_NAMES| =>
      Checkpoint(RELEASE_CHECKPOINT_NAMES[i], 0, GENESIS_HASH))
  }

  function PassingChecks(): (r: seq<SR.Check>)
    ensures |r| == |SR.CHECK_NAMES| && forall i :: 0 <= i < |r| ==> r[i] == SR.Check(SR.CHECK_NAMES[i], true)
  {
    seq(|SR.CHECK_NAMES|, i requires 0 <= i < |SR.CHECK_NAMES| => SR.Check(SR.CHECK_NAMES[i], true))
  }

  /** A recovery receipt, as far as its record of counts goes. */
  function RecoveryJson(counts: seq<Member>): Json { Obj([Field("evidenceRecordCounts", Obj(counts))]) }

  function PassingCommon(e: Evidence, origin: string, org: string): Common {
    Common(if e.Recovery? then RecoveryJson([]) else Null, Obj([]), "t", origin, org, "p", PassingControls(e),
           Head(0, GENESIS_HASH))
  }

  function PassingEach(k: Setting): PerEvidence<Common> {
    PerEvidence(
      PassingCommon(Staging, "d", k.org), PassingCommon(AppActionExactlyOnce, "d", k.org),
      PassingCommon(Marketplace, "d", k.org),
      PassingCommon(CliSessions, "d", k.org), PassingCommon(CliAdmin, "d", k.org),
      PassingCommon(MarketplaceReleaseRevocation, "d", k.org), PassingCommon(WorkloadIssuerRotation, "d", k.org),
      PassingCommon(AppEvidenceHealth, "d", k.org), PassingCommon(AppSnapshotFenceProbe, "s", k.org),
      PassingCommon(LearningEntities, "s", k.org), PassingCommon(AppSnapshots, "s", k.org),
      PassingCommon(AppSnapshotRecovery, "s", k.org), PassingCommon(AppSnapshotReconciliation, "s", k.org),
      PassingCommon(Recovery, "d", k.org), PassingCommon(AuditRetention, "d", k.org))
  }

  function ReconciliationScope(k: Setting): string { k.appDigest(["s", k.org, "p"]) }

  function PassingReceiptOf(k: Setting): SR.ReconciliationReceipt {
    var scope := ReconciliationScope(k);
    SR.ReconciliationReceipt(scope, k.digests.fence(scope), 2, 0, k.digests.generation(scope, 0), 0, SN.NO_COUNTS,
                             0, 0, 0, 0, "u", true, PassingChecks())
  }

  function PassingSet(k: Setting): ReceiptSet {
    ReceiptSet(PassingEach(k), 1, 1, "c", App("i", "v", "a"), "a", "x", "x", [],
               k.appDigest(["s", k.lower(k.org), "fence_probe"]), k.appDigest(["s", k.lower(k.org), "learning_probe"]),
               Payload("a", "f"), Payload("a", "f"), "r", "t", PassingReceiptOf(k), "source", "target", [],
               GenesisReceipt(k))
  }

  function PassingConfig(k: Setting): Config {
    Config("repository", "c", "1", 1, "d", "s", "r", k.org, "p", "source", App("i", "v", "a"),
           "u", "a", k.appDigest([]), "key", "pem", 60)
  }

  function InputsWith(recovery: Json): PerEvidence<Json> {
    PerEvidence(Null, Null, Null, Null, Null, Null, Null, Null, Null, Null, Null, Null, Null, recovery, Null)
  }

  function NoInputs(): PerEvidence<Json> { InputsWith(RecoveryJson([])) }

  function ProtoMember(): Member { Member(PROTO, Number([0x31])) }

  /** A recovery receipt that differs from the one above by a `__proto__` member in `evidenceRecordCounts`. */
  function ProtoInputs(): PerEvidence<Json> { InputsWith(RecoveryJson([ProtoMember()])) }

  function PassingPlatform(k: Setting): Platform {
    Platform(
      inputs => if inputs == NoInputs() || inputs == ProtoInputs() then Ok(PassingSet(k)) else Err(Staging),
      _ => true, _ => true, _ => Some(0), _ => "t", origin => Some(origin), k.lower, k.sha, k.appDigest,
      _ => true, k.publicKeyDigest, k.crypto, k.digests, [])
  }

  predicate AtStorage(e: Evidence) {
    e in {AppSnapshotFenceProbe, LearningEntities, AppSnapshots, AppSnapshotRecovery, AppSnapshotReconciliation}
  }

  lemma EachIs(k: Setting, e: Evidence)
    ensures PassingEach(k).Of(e) == PassingCommon(e, if AtStorage(e) then "s" else "d", k.org)
  {
    hide PassingCommon;
    match e
    case _ =>
  }

  lemma EachPasses(k: Setting, e: Evidence)
    ensures var c := PassingEach(k).Of(e);
      && c.controls == PassingControls(e) && c.auditHead == Head(0, GENESIS_HASH) && c.completedAt == "t"
      && c.organizationId == k.org && c.projectKey == "p" && c.origin == (if AtStorage(e) then "s" else "d")
      && c.value == (if e.Recovery? then RecoveryJson([]) else Null) && c.summary == Obj([])
  {
    hide PassingEach, PassingControls, GENESIS_HASH, RecoveryJson, AtStorage;
    EachIs(k, e);
  }

  lemma PassingChecksExact()
    ensures ExactNames(CheckNames(PassingChecks()), SR.CHECK_NAMES)
  {
    hide ExactNames, SR.CHECK_NAMES;
    var names := CheckNames(PassingChecks());
    assert names == SR.CHECK_NAMES;
    CheckNamesDistinct();
    ExactNamesIff(names, SR.CHECK_NAMES);
  }

  lemma PassingReconciliation(k: Setting)
    ensures SR.GateAccepts(PassingPlatform(k).digests, PassingSet(k).reconciliation)
    ensures PassingSet(k).reconciliation.checks == PassingChecks()
  {
    hide SR.CHECK_NAMES, PassingChecks, PassingEach, GenesisReceipt;
  }

  lemma PassingDrain(k: Setting)
    requires Signs(k)
    ensures GenesisReceipt(k).checkpoints == Some(GenesisCheckpoints())
    ensures ReceiptSchemaHolds(GenesisReceipt(k)) && CheckpointSetSchema(GenesisCheckpoints())
    ensures ExactNames(CheckpointNames(GenesisCheckpoints()), RELEASE_CHECKPOINT_NAMES)
    ensures AckBinding(PassingPlatform(k), GenesisReceipt(k), PassingConfig(k)).None?
  {
    hide ExactNames, CheckpointSetSchema, GENESIS_HASH, PassingSet, GenesisCheckpoints;
    GenesisCheckpointsValid(GenesisCheckpoints());
    CheckpointSetIsExact(GenesisCheckpoints());
  }

  lemma PassingLists(k: Setting)
    requires Signs(k)
    ensures PassingSet(k).drain == GenesisReceipt(k) && PassingSet(k).each == PassingEach(k)
    ensures GenesisReceipt(k).checkpoints.Some? && ListVerdict(PassingPlatform(k), PassingSet(k)).None?
  {
    hide ExactNames, PassingEach, GenesisReceipt, PassingChecks, CheckpointNames, CheckNames, ReceiptSchemaHolds,
         CheckpointSetSchema, AckBinding, ListVerdict;
    PassingChecksExact();
    PassingDrain(k);
    NothingExact();
    ListsFrom(PassingPlatform(k), PassingSet(k));
  }

  lemma NothingExact()
    ensures ExactNames<string>([], [])
  {}

  lemma ListsFrom(p: Platform, s: ReceiptSet)
    requires s.drain.checkpoints.Some?
    requires ExactNames(CheckNames(s.reconciliation.checks), SR.CHECK_NAMES)
    requires ExactNames(s.recoveredTables, p.recoveryTables)
    requires ExactNames(CheckpointNames(s.drain.checkpoints.value), RELEASE_CHECKPOINT_NAMES)
    ensures ListVerdict(p, s).None?
  {}

  lemma GenesisWatched(k: Setting, e: Evidence, name: string)
    requires name in RELEASE_CHECKPOINT_NAMES
    ensures Watches(GenesisCheckpoints(), name, PassingEach(k).Of(e).auditHead)
  {
    hide GENESIS_HASH, RELEASE_CHECKPOINT_NAMES, PassingEach, PassingControls, RecoveryJson, AtStorage;
    EachPasses(k, e);
    var i :| 0 <= i < |RELEASE_CHECKPOINT_NAMES| && RELEASE_CHECKPOINT_NAMES[i] == name;
    assert GenesisCheckpoints()[i] == Checkpoint(name, 0, GENESIS_HASH);
  }

  lemma GenesisConfigured(s: ReceiptSet, k: Setting)
    requires s.each == PassingEach(k)
    ensures ConfiguredFor(GenesisCheckpoints(), s)
  {
    hide Watches, PassingEach, GENESIS_HASH;
    GenesisWatched(k, Staging, "staging");
    GenesisWatched(k, Marketplace, "marketplace");
    GenesisWatched(k, AppEvidenceHealth, "app_evidence_health");
    GenesisWatched(k, CliSessions, "cli_sessions");
    GenesisWatched(k, CliAdmin, "cli_admin");
    GenesisWatched(k, MarketplaceReleaseRevocation, "marketplace_release_revocation");
    GenesisWatched(k, WorkloadIssuerRotation, "workload_issuer_rotation");
  }

  lemma PassingCheckpoints(k: Setting)
    requires Signs(k)
    ensures PassingSet(k).drain.checkpoints.Some? && CheckpointsProved(PassingSet(k))
  {
    hide ConfiguredFor, CheckpointsProved, PassingEach, GENESIS_HASH, CheckpointNames, ExactNames, ReceiptSchemaHolds;
    PassingLists(k);
    PassingDrain(k);
    GenesisConfigured(PassingSet(k), k);
    GenesisInInterval(k);
    ConfiguredForIff(GenesisCheckpoints(), PassingSet(k));
  }

  lemma GenesisInInterval(k: Setting)
    ensures forall c :: c in GenesisCheckpoints() ==> InInterval(c, GenesisReceipt(k))
  {
    hide GENESIS_HASH, RELEASE_CHECKPOINT_NAMES;
  }

  lemma PassingScopes(k: Setting)
    ensures var p, s, config := PassingPlatform(k), PassingSet(k), PassingConfig(k);
      && FromDeployment(p, s, "d") && DistinctReplicas(p, s, "d") && ConfigValid(p, config)
  {
    hide PassingControls, GENESIS_HASH, GenesisCheckpoints, PassingChecks;
    assert "x"[0] != "d"[0];
  }

  /** The parts of the platform that the scope checks use. */
  lemma PlatformParts(k: Setting)
    ensures var p := PassingPlatform(k);
      && p.lower == k.lower && p.appDigest == k.appDigest
      && (forall origin :: p.trustedOrigin(origin) == Some(origin)) && (forall time :: p.parseTime(time) == Some(0))
  {
    hide PassingSet, NoInputs, ProtoInputs;
  }

  lemma StorageOrigins(k: Setting)
    ensures PassingEach(k).appSnapshots.origin == PassingEach(k).appSnapshotRecovery.origin == "s"
  {
    hide PassingControls, RecoveryJson;
  }

  lemma StorageReceipt(k: Setting)
    ensures PassingReceiptOf(k).scopeDigest == k.appDigest(["s", k.org, "p"])
    ensures PassingReceiptOf(k).unreferencedInventoryDigest == "u"
  {
    hide PassingChecks;
  }

  /** The parts of the receipts that the storage checks use. */
  lemma StorageParts(k: Setting)
    ensures var s := PassingSet(k);
      && s.each.appSnapshots.origin == s.each.appSnapshotRecovery.origin == "s" && s.restoreOrigin == "r"
      && s.fenceScope == k.appDigest(["s", k.lower(k.org), "fence_probe"])
      && s.learningScope == k.appDigest(["s", k.lower(k.org), "learning_probe"])
      && s.restored == s.payload && s.reconciliation.scopeDigest == k.appDigest(["s", k.org, "p"])
      && s.reconciliation.unreferencedInventoryDigest == "u"
  {
    hide PassingEach, PassingReceiptOf, GenesisReceipt, PassingChecks;
    StorageOrigins(k);
    StorageReceipt(k);
  }

  lemma PassingStorage(k: Setting)
    ensures StorageBound(PassingPlatform(k), PassingSet(k), PassingConfig(k))
  {
    hide PassingPlatform, PassingSet;
    PlatformParts(k);
    StorageParts(k);
    assert "s"[0] != "r"[0];
  }

  lemma PassingIdentities(k: Setting)
    ensures IdentitiesBound(PassingPlatform(k), PassingSet(k), PassingConfig(k))
  {
    hide PassingEach, PassingReceiptOf, GenesisReceipt, PassingChecks;
    assert "source"[0] != "target"[0];
  }

  lemma PassingTenant(k: Setting)
    ensures TenantBound(PassingSet(k), PassingConfig(k))
  {
    hide PassingEach, GENESIS_HASH, GenesisCheckpoints, PassingChecks;
    forall e ensures PassingEach(k).Of(e).organizationId == k.org && PassingEach(k).Of(e).projectKey == "p" {
      EachPasses(k, e);
    }
  }

  lemma PassingControlVerdict(k: Setting)
    ensures ControlVerdict(PassingSet(k), CONTROLLED).None?
  {
    hide PassingControls, ExactControls, Required, ControlVerdict, PassingEach, GenesisReceipt, PassingChecks;
    forall e | e in CONTROLLED ensures ListedHere(e) && ExactControls(e, PassingSet(k).each.Of(e).controls) {
      ControlledListed(e);
      EachPasses(k, e);
      PassingControlsHold(e);
      ExactControlsIff(e, PassingControls(e));
    }
    ControlVerdictIff(PassingSet(k), CONTROLLED);
  }

  lemma ControlledListed(e: Evidence)
    requires e in CONTROLLED
    ensures ListedHere(e)
  {}

  lemma PassingVerdict(k: Setting)
    requires Signs(k)
    ensures PassingSet(k).drain.checkpoints.Some?
    ensures ReceiptsVerdict(PassingPlatform(k), PassingSet(k), PassingConfig(k), "d", 0).None?
  {
    hide ListVerdict, CheckpointsProved, AckBinding, FromDeployment, DistinctReplicas, StorageBound, TenantBound,
         IdentitiesBound, ControlVerdict, FirstStale, ConfigValid, ReceiptSchemaHolds, PassingEach, PassingChecks,
         GenesisReceipt;
    PassingLists(k);
    PassingDrain(k);
    PassingCheckpoints(k);
    PassingScopes(k);
    PassingStorage(k);
    PassingIdentities(k);
    PassingTenant(k);
    PassingControlVerdict(k);
    PassingIsFresh(k);
  }

  lemma PassingIsFresh(k: Setting)
    ensures FirstStale(PassingPlatform(k), PassingSet(k), 0, 60, ORDER).None?
  {
    hide FirstStale, PassingEach, PassingChecks, GenesisReceipt;
    AllKindsFresh(PassingPlatform(k), PassingSet(k), 0, 60);
  }

  lemma InputsDropToPassing(k: Setting, inputs: PerEvidence<Json>, e: Evidence)
    requires inputs == NoInputs() || inputs == ProtoInputs()
    ensures DropProto(inputs.Of(e)) == PassingEach(k).Of(e).value
  {
    hide PassingEach, RecoveryJson, PassingControls;
    EachPasses(k, e);
    RecoveryDrops([]);
    RecoveryDrops([ProtoMember()]);
    assert DropMembers([]) == [] && DropMembers([ProtoMember()]) == [];
  }

  lemma RecoveryDrops(counts: seq<Member>)
    ensures DropProto(RecoveryJson(counts)) == RecoveryJson(DropMembers(counts))
  {
    hide DropMembers;
    var field := Field("evidenceRecordCounts", Obj(counts));
    OneMemberDrops(field, []);
    MembersDropNothing([]);
    assert [field] + [] == [field] && |field.key| != |PROTO|;
  }

  lemma OneMemberDrops(m: Member, rest: seq<Member>)
    ensures DropMembers([m] + rest)
         == (if m.key == PROTO then [] else [Member(m.key, DropProto(m.value))]) + DropMembers(rest)
  {
    assert ([m] + rest)[1..] == rest;
  }

  lemma PassingIsFaithful(k: Setting)
    ensures Faithful(PassingPlatform(k))
  {
    hide PassingEach, PassingChecks, GenesisReceipt, DropProto, NoInputs, ProtoInputs, Sound, Meaning;
    var p := PassingPlatform(k);
    forall inputs | p.parse(inputs).Ok? ensures ParsedFaithfully(inputs, p.parse(inputs).value) {
      assert inputs == NoInputs() || inputs == ProtoInputs();
      assert p.parse(inputs).value.each == PassingEach(k);
      forall e
        ensures Sound(PassingEach(k).Of(e).value) && Sound(PassingEach(k).Of(e).summary)
        ensures Meaning(PassingEach(k).Of(e).value) == Meaning(DropProto(inputs.Of(e)))
      {
        EachPasses(k, e);
        ScalarsAreSound();
        InputsDropToPassing(k, inputs, e);
      }
    }
  }

  /** The platform knows one set of receipts, so it reads no two inputs differently. */
  lemma PassingParses(k: Setting)
    ensures ParsesByMeaning(PassingPlatform(k))
  {
    hide PassingSet, NoInputs, ProtoInputs, SameInputs;
    var s := PassingSet(k);
    assert s.(each := s.each) == s;
    forall e ensures SameCommon(s.each.Of(e), s.each.Of(e)) {}
  }

  lemma ScalarsAreSound()
    ensures Sound(Null) && Sound(Obj([])) && Sound(RecoveryJson([]))
  {}

  /** The checks of `build` can all be met at once, under faithful schemas, for every organization
      and whatever the digests and signatures are. */
  lemma SomeEvidenceIsAccepted(k: Setting)
    requires Signs(k)
    ensures Faithful(PassingPlatform(k)) && ParsesByMeaning(PassingPlatform(k))
    ensures Build(PassingPlatform(k), NoInputs(), PassingConfig(k), 0).Ok?
  {
    hide PassingSet, ReceiptSchemaHolds, SR.GateAccepts, ReceiptsVerdict, Assemble, Faithful, ParsesByMeaning;
    PassingParses(k);
    PassingReconciliation(k);
    PassingLists(k);
    PassingDrain(k);
    PassingVerdict(k);
    PassingIsFaithful(k);
  }

  lemma ProtoInputsDiffer()
    ensures Meaning(NoInputs().recovery) != Meaning(ProtoInputs().recovery)
  {
    hide Meaning;
    var m, n := [Field("evidenceRecordCounts", Obj([]))], [Field("evidenceRecordCounts", Obj([ProtoMember()]))];
    ProtoLeavesNoTrace(Number([0x31]));
    ObjSame(m, n);
    assert m[0].value == Obj([]) && n[0].value == Obj([ProtoMember()]);
  }

  /** Why `__proto__` members are set aside: under faithful schemas two recovery receipts that differ by
      one build the same manifest, without any collision. */
  lemma ProtoReceiptsBuildAlike(k: Setting)
    requires Signs(k)
    ensures Faithful(PassingPlatform(k))
    ensures Build(PassingPlatform(k), NoInputs(), PassingConfig(k), 0).Ok?
    ensures Build(PassingPlatform(k), NoInputs(), PassingConfig(k), 0)
         == Build(PassingPlatform(k), ProtoInputs(), PassingConfig(k), 0)
    ensures Parse(PassingPlatform(k), NoInputs()) == Parse(PassingPlatform(k), ProtoInputs())
    ensures Meaning(NoInputs().Of(Recovery)) != Meaning(ProtoInputs().Of(Recovery))
  {
    hide PassingSet, ReceiptSchemaHolds, SR.GateAccepts, ReceiptsVerdict, Assemble, Faithful, Meaning, InputsWith;
    SomeEvidenceIsAccepted(k);
    ProtoInputsDiffer();
    RecoveryIs();
  }

  lemma RecoveryIs()
    ensures NoInputs().Of(Recovery) == NoInputs().recovery && ProtoInputs().Of(Recovery) == ProtoInputs().recovery
  {}
}
