/** The controls each release receipt must list, and the status each control must report
    (scripts/production-evidence-manifest.ts). */
module ReleaseControls {
  import opened Wrappers

  datatype Evidence =
    | Staging | AppActionExactlyOnce | Marketplace | CliSessions | CliAdmin
    | MarketplaceReleaseRevocation | WorkloadIssuerRotation | AppEvidenceHealth
    | AppSnapshotFenceProbe | LearningEntities | AppSnapshots | AppSnapshotRecovery
    | AppSnapshotReconciliation | Recovery | AuditRetention

  /** `Other` is any name outside the lists. */
  datatype ControlName =
    | Readiness | OperationalMetrics | AppActionReconciliationHealth | AuditIntegrity
    | UnauthenticatedUserDenial | CrossTenantUserDenial | SuspendedUserDenial | UserApiQuotaSaturation
    | UnauthenticatedDenial | TenantCatalogVisibility | ArtifactSignatureAndCache | CrossTenantDenial
    | DurableRevocation | ReplayDenial | IndependentAuditEvidence
    | DeviceIssuanceSaturation | PollingSlowDown | PrimaryRefreshRotation | CrossReplicaRefreshRotation
    | StaleRequestMetadataDenial | SuspendedMembershipDenial | RevokedSessionDenial
    | RequestRateSaturation | RefreshReplayFamilyRevocation
    | Aal1StepUpDenial | Aal2ExactSessionRevocation | PostRevocationInventory | RevokedCliAccessDenial
    | VerifiedReleaseCached | DeniedRequestPreservesRelease | Aal2ExactReleaseRevocation
    | WorkloadRevocationAndCacheEviction
    | PreRotationJwks | PreviousKeyCrossReplicaAcceptance | OverlapPublished
    | NextKeyCrossReplicaAcceptance | PreviousKeyRetired | PreviousKeyCrossReplicaDenial
    | NextKeyPostRetirementAcceptance
    | AuthorizedHealthProjection | AggregateOnlyContract | MetricsProjectionParity
    | ClassificationFixtureRehearsal
    | RegistryInsertAdvanced | RegistryUpdateAdvanced | RegistryDeleteAdvanced | StorageUploadAdvanced
    | StorageReplaceAdvanced | StorageDeleteAdvanced | ProbeAuthorityClean | ProbeGenerationClean
    | DistributedMeasurementClaim | StaleLeaseRejected | CrossReplicaJobFinalization
    | MetricSampleImmutable | ObservedOutcomeImmutable | ValueLedgerImmutable
    | CrossReplicaEntityVisibility | ProviderAliasSingleOwner | ProbeScopeClean
    | PrivateBoundedBucket | AuthenticatedDownloadDenial | AuthenticatedInsertDenial
    | AuthenticatedUpdateDenial | AuthenticatedDeleteDenial | ImmutableFirstWriter
    | CrossReplicaExactRecovery | CleanupVerified
    | SeparatePrivateBoundedBuckets | SourceArchiveExported | TargetFirstWriterRestore
    | IsolatedTargetExactLoad | SourcePreservedAfterTargetCleanup
    | Other(text: string)

  datatype Control = Control(name: ControlName, status: Option<int>)

  /** The control names of eleven evidence kinds. The lists of the other four are the recovery tables, the
      reconciliation checks, the drain checkpoints, and none for the exactly-once proof. */
  function Required(e: Evidence): seq<ControlName> {
    match e
    case Staging => [Readiness, OperationalMetrics, AppActionReconciliationHealth, AuditIntegrity,
                     UnauthenticatedUserDenial, CrossTenantUserDenial, SuspendedUserDenial,
                     UserApiQuotaSaturation]
    case Marketplace => [UnauthenticatedDenial, TenantCatalogVisibility, ArtifactSignatureAndCache,
                         CrossTenantDenial, DurableRevocation, ReplayDenial, IndependentAuditEvidence]
    case CliSessions => [DeviceIssuanceSaturation, PollingSlowDown, PrimaryRefreshRotation,
                         CrossReplicaRefreshRotation, StaleRequestMetadataDenial, SuspendedMembershipDenial,
                         RevokedSessionDenial, RequestRateSaturation, RefreshReplayFamilyRevocation,
                         IndependentAuditEvidence]
    case CliAdmin => [Aal1StepUpDenial, Aal2ExactSessionRevocation, PostRevocationInventory,
                      RevokedCliAccessDenial, IndependentAuditEvidence]
    case MarketplaceReleaseRevocation => [VerifiedReleaseCached, Aal1StepUpDenial,
                                          DeniedRequestPreservesRelease, Aal2ExactReleaseRevocation,
                                          WorkloadRevocationAndCacheEviction, IndependentAuditEvidence]
    case WorkloadIssuerRotation => [PreRotationJwks, PreviousKeyCrossReplicaAcceptance, OverlapPublished,
                                    NextKeyCrossReplicaAcceptance, PreviousKeyRetired,
                                    PreviousKeyCrossReplicaDenial, NextKeyPostRetirementAcceptance,
                                    IndependentAuditEvidence]
    case AppEvidenceHealth => [UnauthenticatedDenial, CrossTenantDenial, AuthorizedHealthProjection,
                               ReplayDenial, AggregateOnlyContract, MetricsProjectionParity,
                               ClassificationFixtureRehearsal, IndependentAuditEvidence]
    case AppSnapshotFenceProbe => [RegistryInsertAdvanced, RegistryUpdateAdvanced, RegistryDeleteAdvanced,
                                   StorageUploadAdvanced, StorageReplaceAdvanced, StorageDeleteAdvanced,
                                   ProbeAuthorityClean, ProbeGenerationClean]
    case LearningEntities => [DistributedMeasurementClaim, StaleLeaseRejected, CrossReplicaJobFinalization,
                              MetricSampleImmutable, ObservedOutcomeImmutable, ValueLedgerImmutable,
                              CrossReplicaEntityVisibility, ProviderAliasSingleOwner, ProbeScopeClean]
    case AppSnapshots => [PrivateBoundedBucket, AuthenticatedDownloadDenial, AuthenticatedInsertDenial,
                          AuthenticatedUpdateDenial, AuthenticatedDeleteDenial, ImmutableFirstWriter,
                          CrossReplicaExactRecovery, CleanupVerified]
    case AppSnapshotRecovery => [SeparatePrivateBoundedBuckets, SourceArchiveExported,
                                 TargetFirstWriterRestore, IsolatedTargetExactLoad,
                                 SourcePreservedAfterTargetCleanup, CleanupVerified]
    case _ => []
  }

  predicate ListedHere(e: Evidence) { Required(e) != [] }

  predicate HasStatusTable(e: Evidence) {
    e.Staging? || e.CliSessions? || e.CliAdmin? || e.MarketplaceReleaseRevocation?
    || e.WorkloadIssuerRotation? || e.AppEvidenceHealth?
  }

  /** The statuses a control may report; `None` is a check without a status. */
  function Allowed(e: Evidence, name: ControlName): seq<Option<int>> {
    match e
    case Staging =>
      (match name
       case Readiness => [Some(200)]
       case OperationalMetrics => [Some(200)]
       case AppActionReconciliationHealth => [Some(200)]
       case AuditIntegrity => [Some(200)]
       case UnauthenticatedUserDenial => [Some(401)]
       case CrossTenantUserDenial => [Some(403)]
       case SuspendedUserDenial => [Some(403)]
       case UserApiQuotaSaturation => [Some(429)]
       case _ => [])
    case CliSessions =>
      (match name
       case DeviceIssuanceSaturation => [Some(429)]
       case PollingSlowDown => [Some(429)]
       case PrimaryRefreshRotation => [Some(200)]
       case CrossReplicaRefreshRotation => [Some(200)]
       case StaleRequestMetadataDenial => [Some(400)]
       case SuspendedMembershipDenial => [Some(403)]
       case RevokedSessionDenial => [Some(401)]
       case RequestRateSaturation => [Some(429)]
       case RefreshReplayFamilyRevocation => [Some(400)]
       case IndependentAuditEvidence => [Some(200)]
       case _ => [])
    case CliAdmin =>
      (match name
       case Aal1StepUpDenial => [Some(403)]
       case Aal2ExactSessionRevocation => [Some(200)]
       case PostRevocationInventory => [Some(200)]
       case RevokedCliAccessDenial => [Some(401)]
       case IndependentAuditEvidence => [Some(200)]
       case _ => [])
    case MarketplaceReleaseRevocation =>
      (match name
       case VerifiedReleaseCached => [Some(200)]
       case Aal1StepUpDenial => [Some(403)]
       case DeniedRequestPreservesRelease => [Some(200)]
       case Aal2ExactReleaseRevocation => [Some(200)]
       case WorkloadRevocationAndCacheEviction => [Some(404)]
       case IndependentAuditEvidence => [Some(200)]
       case _ => [])
    case WorkloadIssuerRotation =>
      (match name
       case PreRotationJwks => [Some(200)]
       case PreviousKeyCrossReplicaAcceptance => [Some(200)]
       case OverlapPublished => [Some(200)]
       case NextKeyCrossReplicaAcceptance => [Some(200)]
       case PreviousKeyRetired => [Some(200)]
       case PreviousKeyCrossReplicaDenial => [Some(401)]
       case NextKeyPostRetirementAcceptance => [Some(200)]
       case IndependentAuditEvidence => [Some(200)]
       case _ => [])
    case AppEvidenceHealth =>
      (match name
       case UnauthenticatedDenial => [Some(401)]
       case CrossTenantDenial => [Some(403)]
       case AuthorizedHealthProjection => [Some(202)]
       case ReplayDenial => [Some(403), Some(409)]
       case AggregateOnlyContract => [None]
       case MetricsProjectionParity => [Some(200)]
       case ClassificationFixtureRehearsal => [None]
       case IndependentAuditEvidence => [Some(200)]
       case _ => [])
    case _ => []
  }

  // ----- the checks

  function NamesOf(controls: seq<Control>): (r: seq<ControlName>)
    ensures |r| == |controls| && forall i :: 0 <= i < |controls| ==> r[i] == controls[i].name
  {
    seq(|controls|, i requires 0 <= i < |controls| => controls[i].name)
  }

  /** `requireExactNames`. */
  predicate ExactNames<T(==)>(actual: seq<T>, expected: seq<T>) {
    && |actual| == |expected|
    && |set name | name in actual| == |actual|
    && forall name :: name in expected ==> name in actual
  }

  /** Looking a name up in a map filled from the controls in order: the last one wins. */
  function StatusOf(controls: seq<Control>, name: ControlName): Option<int> {
    if controls == [] then None
    else if controls[|controls| - 1].name == name then controls[|controls| - 1].status
    else StatusOf(controls[..|controls| - 1], name)
  }

  /** `requireExactStatuses` for staging, and the status maps of the other receipts. */
  predicate StatusesHold(e: Evidence, controls: seq<Control>) {
    if e.Staging? then
      forall c :: c in controls ==> c.status in Allowed(e, c.name)
    else
      HasStatusTable(e) ==> forall name :: name in Required(e) ==> StatusOf(controls, name) in Allowed(e, name)
  }

  predicate ControlsHold(e: Evidence, controls: seq<Control>) {
    ExactNames(NamesOf(controls), Required(e)) && StatusesHold(e, controls)
  }

  // ----- what the checks mean

  lemma {:induction false} DistinctIff<T(!new)>(s: seq<T>)
    ensures |set x | x in s| <= |s|
    ensures Distinct(s) <==> |set x | x in s| == |s|
  {
    if s == [] {
    } else {
      var rest, first := s[1..], s[0];
      DistinctIff(rest);
      assert s == [first] + rest;
      var all, others := set x | x in s, set x | x in rest;
      assert all == others + {first};
      if first in rest {
        var j :| 0 <= j < |rest| && rest[j] == first;
        assert s[0] == s[j + 1];
        assert all == others;
      } else {
        assert Distinct(rest) ==> Distinct(s);
      }
      if Distinct(s) {
        forall i, j | 0 <= i < j < |rest| ensures rest[i] != rest[j] { assert s[i + 1] != s[j + 1]; }
      }
    }
  }

  lemma {:induction false} DistinctCounts<T(!new)>(s: seq<T>, x: T)
    requires Distinct(s)
    ensures multiset(s)[x] == if x in s then 1 else 0
  {
    if s == [] {
    } else {
      var rest := s[1..];
      assert s == [s[0]] + rest;
      forall i, j | 0 <= i < j < |rest| ensures rest[i] != rest[j] { assert s[i + 1] != s[j + 1]; }
      DistinctCounts(rest, x);
    }
  }

  lemma SameSizeSubset<T>(a: set<T>, b: set<T>)
    requires a <= b && |a| >= |b|
    ensures a == b
  {
    assert b == a + (b - a);
  }

  /** The three conditions of `requireExactNames` together say: a permutation of the required list. */
  lemma ExactNamesIff<T(!new)>(actual: seq<T>, expected: seq<T>)
    requires Distinct(expected)
    ensures ExactNames(actual, expected) <==> multiset(actual) == multiset(expected)
  {
    DistinctIff(expected);
    DistinctIff(actual);
    var a, b := set x | x in actual, set x | x in expected;
    if ExactNames(actual, expected) {
      SameSizeSubset(b, a);
      forall x ensures multiset(actual)[x] == multiset(expected)[x] {
        DistinctCounts(actual, x);
        DistinctCounts(expected, x);
        assert x in a <==> x in b;
      }
    }
    if multiset(actual) == multiset(expected) {
      assert |actual| == |multiset(actual)| == |multiset(expected)| == |expected|;
      forall x ensures x in actual <==> x in expected {
        assert x in multiset(actual) <==> x in multiset(expected);
      }
      assert a == b;
    }
  }

  lemma ExactIsDistinct<T(!new)>(actual: seq<T>, expected: seq<T>)
    requires ExactNames(actual, expected)
    ensures Distinct(actual)
  {
    DistinctIff(actual);
  }

  lemma RequiredDistinct(e: Evidence)
    ensures Distinct(Required(e))
  {
    match e
    case _ =>
  }

  /** With distinct names, the map lookup finds each control's own status. */
  lemma {:induction false} StatusFound(controls: seq<Control>, i: nat)
    requires Distinct(NamesOf(controls)) && i < |controls|
    ensures StatusOf(controls, controls[i].name) == controls[i].status
    decreases |controls|
  {
    var n := |controls| - 1;
    if i >= n {
    } else {
      assert NamesOf(controls)[i] != NamesOf(controls)[n];
      var before := controls[..n];
      assert forall j, k :: 0 <= j < k < n ==> NamesOf(controls)[j] != NamesOf(controls)[k];
      StatusFound(before, i);
    }
  }

  lemma StatusesIff(e: Evidence, controls: seq<Control>)
    requires HasStatusTable(e) && Distinct(NamesOf(controls))
    requires forall name :: name in Required(e) <==> name in NamesOf(controls)
    ensures StatusesHold(e, controls) <==> forall c :: c in controls ==> c.status in Allowed(e, c.name)
  {
    hide Required, Allowed, StatusOf;
    var names := NamesOf(controls);
    forall i | 0 <= i < |controls|
      ensures controls[i].name in Required(e) && StatusOf(controls, controls[i].name) == controls[i].status
    {
      assert names[i] in names;
      StatusFound(controls, i);
    }
    if !e.Staging? && forall c :: c in controls ==> c.status in Allowed(e, c.name) {
      forall name | name in Required(e) ensures StatusOf(controls, name) in Allowed(e, name) {
        var i :| 0 <= i < |names| && names[i] == name;
        assert controls[i] in controls;
      }
    }
  }

  /** A receipt's controls pass exactly when they are a permutation of the required list and, where
      there is a status table, every one of them reports an allowed status. */
  lemma ControlsHoldIff(e: Evidence, controls: seq<Control>)
    requires ListedHere(e)
    ensures ControlsHold(e, controls) <==>
      && multiset(NamesOf(controls)) == multiset(Required(e))
      && (HasStatusTable(e) ==> forall c :: c in controls ==> c.status in Allowed(e, c.name))
  {
    hide Required, Allowed, StatusOf, ExactNames;
    var names := NamesOf(controls);
    RequiredDistinct(e);
    ExactNamesIff(names, Required(e));
    if ExactNames(names, Required(e)) {
      assert Distinct(names) by { ExactIsDistinct(names, Required(e)); }
      assert forall name :: name in names <==> name in multiset(names);
      assert forall name :: name in Required(e) <==> name in multiset(Required(e));
      if HasStatusTable(e) { StatusesIff(e, controls); }
    }
  }
}
