/** What the JSON of a manifest says: equal canonical texts are equal manifests, field by field. */
module ManifestBinding {
  import opened JsonText
  import opened CanonicalJson
  import opened TextFidelity
  import opened ReleaseControls
  import opened EvidenceManifest

  // ----- scalars

  lemma {:induction false} Utf16Injective(s: string, t: string)
    requires Utf16(s) == Utf16(t)
    ensures s == t
  {
    if s != "" && t != "" {
      var c, d := s[0] as int, t[0] as int;
      var x, y := Utf16(s), Utf16(t);
      assert x[0] == y[0];
      var width := if c < 0x1_0000 then 1 else 2;
      assert c == d by {
        if c >= 0x1_0000 { assert x[1] == y[1]; }
      }
      assert x[width..] == Utf16(s[1..]) && y[width..] == Utf16(t[1..]);
      Utf16Injective(s[1..], t[1..]);
      assert s[0] == t[0];
      assert s == [s[0]] + s[1..] && t == [t[0]] + t[1..];
    }
  }

  lemma {:induction false} DecimalRoundTrip(n: nat)
    ensures IsNumeral(DecimalOf(n))
    ensures forall i :: 0 <= i < |DecimalOf(n)| ==> 0x30 <= DecimalOf(n)[i] <= 0x39
    ensures Decimal(DecimalOf(n)) == n
  {
    if n >= 10 {
      DecimalRoundTrip(n / 10);
      var t := DecimalOf(n);
      assert t[..|t| - 1] == DecimalOf(n / 10);
    } else {
      assert DecimalOf(n)[..0] == [];
      assert Decimal(DecimalOf(n)) == 10 * Decimal([]) + n;
    }
  }

  // ----- objects with the same keys

  /** Two objects that list the same distinct keys mean the same exactly when their values do. */
  lemma ObjSame(m: seq<Member>, n: seq<Member>)
    requires |m| == |n| && DistinctKeys(m)
    requires forall i :: 0 <= i < |m| ==> m[i].key == n[i].key
    ensures Meaning(Obj(m)) == Meaning(Obj(n)) <==>
      forall i :: 0 <= i < |m| ==> Meaning(m[i].value) == Meaning(n[i].value)
  {
    TableContents(m);
    TableContents(n);
    if forall i :: 0 <= i < |m| ==> Meaning(m[i].value) == Meaning(n[i].value) {
      SameTables(m, n);
    }
    if Meaning(Obj(m)) == Meaning(Obj(n)) {
      forall i | 0 <= i < |m| ensures Meaning(m[i].value) == Meaning(n[i].value) {
        assert Table(m)[m[i].key] == Table(n)[n[i].key];
      }
    }
  }

  lemma {:induction false} SameTables(m: seq<Member>, n: seq<Member>)
    requires |m| == |n|
    requires forall i :: 0 <= i < |m| ==> m[i].key == n[i].key && Meaning(m[i].value) == Meaning(n[i].value)
    ensures Table(m) == Table(n)
  {
    if m == [] {
    } else {
      SameTables(m[1..], n[1..]);
    }
  }

  /** Names that differ in length or first letter are different keys; none of them is `__proto__`. */
  ghost predicate TellableKeys(m: seq<Member>) {
    forall i, k :: 0 <= i < k < |m| ==>
      m[i].key != [] && m[k].key != [] && (|m[i].key| != |m[k].key| || m[i].key[0] != m[k].key[0])
  }

  ghost predicate Sound(j: Json) { Valid(j) && Plain(j) }

  lemma ObjSound(m: seq<Member>)
    requires TellableKeys(m)
    requires forall i :: 0 <= i < |m| ==> (|m[i].key| != 9 || m[i].key[0] != 0x5F) && Sound(m[i].value)
    ensures Sound(Obj(m))
  {}

  lemma TextSame(s: string, t: string)
    ensures Meaning(Text16(s)) == Meaning(Text16(t)) <==> s == t
    ensures Sound(Text16(s))
  {
    if Utf16(s) == Utf16(t) { Utf16Injective(s, t); }
  }

  // ----- the parts of a manifest

  /** `ObjSame` and `ObjSound` together. */
  lemma SameByParts(m: seq<Member>, n: seq<Member>)
    requires |m| == |n| && TellableKeys(m)
    requires forall i :: 0 <= i < |m| ==>
      m[i].key == n[i].key && (|m[i].key| != 9 || m[i].key[0] != 0x5F) && Sound(m[i].value)
    ensures Meaning(Obj(m)) == Meaning(Obj(n)) <==>
      forall i :: 0 <= i < |m| ==> Meaning(m[i].value) == Meaning(n[i].value)
    ensures Sound(Obj(m))
  {
    ObjSame(m, n);
    ObjSound(m);
  }

  lemma ReleaseKeys(r: Release)
    ensures TellableKeys(ReleaseJson(r).members)
    ensures forall i :: 0 <= i < 6 ==> |ReleaseJson(r).members[i].key| != 9 || ReleaseJson(r).members[i].key[0] != 0x5F
  {
    hide Utf16, DecimalOf;
  }

  lemma ReleaseValues(a: Release, b: Release)
    ensures var m, n := ReleaseJson(a).members, ReleaseJson(b).members;
      (forall i :: 0 <= i < 6 ==> Meaning(m[i].value) == Meaning(n[i].value)) <==> a == b
    ensures forall i :: 0 <= i < 6 ==> Sound(ReleaseJson(a).members[i].value)
  {
    hide Utf16, DecimalOf, Sound, Meaning;
    var m, n := ReleaseJson(a).members, ReleaseJson(b).members;
    TextSame(a.repository, b.repository);
    TextSame(a.commitSha, b.commitSha);
    TextSame(a.workflowRunId, b.workflowRunId);
    NumberSame(a.workflowRunAttempt, b.workflowRunAttempt);
    TextSame(a.deploymentOrigin, b.deploymentOrigin);
    TextSame(a.generatedAt, b.generatedAt);
    if forall i :: 0 <= i < 6 ==> Meaning(m[i].value) == Meaning(n[i].value) {
      assert Meaning(m[0].value) == Meaning(n[0].value) && Meaning(m[1].value) == Meaning(n[1].value);
      assert Meaning(m[2].value) == Meaning(n[2].value) && Meaning(m[3].value) == Meaning(n[3].value);
      assert Meaning(m[4].value) == Meaning(n[4].value) && Meaning(m[5].value) == Meaning(n[5].value);
    }
  }

  lemma NumberSame(a: nat, b: nat)
    ensures Meaning(Number(DecimalOf(a))) == Meaning(Number(DecimalOf(b))) <==> a == b
    ensures Sound(Number(DecimalOf(a)))
  {
    DecimalRoundTrip(a);
    DecimalRoundTrip(b);
  }

  lemma ReleaseSame(a: Release, b: Release)
    ensures Meaning(ReleaseJson(a)) == Meaning(ReleaseJson(b)) <==> a == b
    ensures Sound(ReleaseJson(a))
  {
    ReleaseKeys(a);
    ReleaseKeys(b);
    ReleaseValues(a, b);
    SameByParts(ReleaseJson(a).members, ReleaseJson(b).members);
  }

  lemma AppValues(a: App, b: App)
    ensures var m, n := AppJson(a).members, AppJson(b).members;
      (forall i :: 0 <= i < 3 ==> Meaning(m[i].value) == Meaning(n[i].value)) <==> a == b
    ensures forall i :: 0 <= i < 3 ==> Sound(AppJson(a).members[i].value)
  {
    hide Utf16, Sound, Meaning;
    var m, n := AppJson(a).members, AppJson(b).members;
    TextSame(a.id, b.id);
    TextSame(a.version, b.version);
    TextSame(a.artifactDigest, b.artifactDigest);
    if forall i :: 0 <= i < 3 ==> Meaning(m[i].value) == Meaning(n[i].value) {
      assert Meaning(m[0].value) == Meaning(n[0].value) && Meaning(m[1].value) == Meaning(n[1].value);
      assert Meaning(m[2].value) == Meaning(n[2].value);
    }
  }

  lemma AppSame(a: App, b: App)
    ensures Meaning(AppJson(a)) == Meaning(AppJson(b)) <==> a == b
    ensures Sound(AppJson(a))
  {
    hide Utf16;
    AppValues(a, b);
    SameByParts(AppJson(a).members, AppJson(b).members);
  }

  lemma TrustSame(a: (string, string), b: (string, string))
    ensures Meaning(TrustJson(a.0, a.1)) == Meaning(TrustJson(b.0, b.1)) <==> a == b
    ensures Sound(TrustJson(a.0, a.1))
  {
    hide Utf16;
    var m, n := TrustJson(a.0, a.1).members, TrustJson(b.0, b.1).members;
    ObjSame(m, n);
    TextSame(a.0, b.0);
    TextSame(a.1, b.1);
    ObjSound(m);
    if Meaning(TrustJson(a.0, a.1)) == Meaning(TrustJson(b.0, b.1)) {
      assert m[0].value == Text16(a.0) && m[1].value == Text16(a.1);
    }
  }

  lemma SingletonSame(name: string, a: string, b: string)
    requires |name| != 9
    ensures Meaning(Obj([Field(name, Text16(a))])) == Meaning(Obj([Field(name, Text16(b))])) <==> a == b
    ensures Sound(Obj([Field(name, Text16(a))]))
  {
    hide Utf16;
    var m, n := [Field(name, Text16(a))], [Field(name, Text16(b))];
    ObjSame(m, n);
    TextSame(a, b);
    ObjSound(m);
    if Meaning(Obj(m)) == Meaning(Obj(n)) { assert m[0].value == Text16(a); }
  }

  lemma ScopeKeys(s: Scope)
    ensures TellableKeys(ScopeJson(s).members)
    ensures forall i :: 0 <= i < 8 ==> |ScopeJson(s).members[i].key| != 9
  {
    hide Utf16, AppJson, TrustJson;
  }

  lemma ScopeValues(a: Scope, b: Scope)
    ensures var m, n := ScopeJson(a).members, ScopeJson(b).members;
      (forall i :: 0 <= i < 8 ==> Meaning(m[i].value) == Meaning(n[i].value)) <==> a == b
    ensures forall i :: 0 <= i < 8 ==> Sound(ScopeJson(a).members[i].value)
  {
    hide Utf16, AppJson, TrustJson, Sound, Meaning;
    var m, n := ScopeJson(a).members, ScopeJson(b).members;
    TextSame(a.organizationId, b.organizationId);
    TextSame(a.projectKey, b.projectKey);
    TextSame(a.databaseIdentity, b.databaseIdentity);
    AppSame(a.app, b.app);
    SingletonSame("unreferencedInventoryDigest", a.inventoryDigest, b.inventoryDigest);
    SingletonSame("scopeDigest", a.fenceScope, b.fenceScope);
    SingletonSame("scopeDigest", a.learningScope, b.learningScope);
    TrustSame((a.keyId, a.publicKeyDigest), (b.keyId, b.publicKeyDigest));
    if forall i :: 0 <= i < 8 ==> Meaning(m[i].value) == Meaning(n[i].value) {
      assert Meaning(m[0].value) == Meaning(n[0].value) && Meaning(m[1].value) == Meaning(n[1].value);
      assert Meaning(m[2].value) == Meaning(n[2].value) && Meaning(m[3].value) == Meaning(n[3].value);
      assert Meaning(m[4].value) == Meaning(n[4].value) && Meaning(m[5].value) == Meaning(n[5].value);
      assert Meaning(m[6].value) == Meaning(n[6].value) && Meaning(m[7].value) == Meaning(n[7].value);
    }
  }

  lemma ScopeSame(a: Scope, b: Scope)
    ensures Meaning(ScopeJson(a)) == Meaning(ScopeJson(b)) <==> a == b
    ensures Sound(ScopeJson(a))
  {
    hide Sound, AppJson, TrustJson, Utf16;
    ScopeKeys(a);
    ScopeKeys(b);
    ScopeValues(a, b);
    SameByParts(ScopeJson(a).members, ScopeJson(b).members);
  }

  ghost predicate SameDescriptor(a: Descriptor, b: Descriptor) {
    a.digest == b.digest && a.completedAt == b.completedAt && Meaning(a.summary) == Meaning(b.summary)
  }

  lemma DescriptorValues(a: Descriptor, b: Descriptor)
    requires Sound(a.summary)
    ensures var m, n := DescriptorJson(a).members, DescriptorJson(b).members;
      (forall i :: 0 <= i < 3 ==> Meaning(m[i].value) == Meaning(n[i].value)) <==> SameDescriptor(a, b)
    ensures forall i :: 0 <= i < 3 ==> Sound(DescriptorJson(a).members[i].value)
  {
    hide Utf16, Sound, Meaning;
    var m, n := DescriptorJson(a).members, DescriptorJson(b).members;
    TextSame(a.digest, b.digest);
    TextSame(a.completedAt, b.completedAt);
    if forall i :: 0 <= i < 3 ==> Meaning(m[i].value) == Meaning(n[i].value) {
      assert Meaning(m[0].value) == Meaning(n[0].value) && Meaning(m[1].value) == Meaning(n[1].value);
      assert Meaning(m[2].value) == Meaning(n[2].value);
    }
  }

  lemma DescriptorSame(a: Descriptor, b: Descriptor)
    requires Sound(a.summary)
    ensures Meaning(DescriptorJson(a)) == Meaning(DescriptorJson(b)) <==> SameDescriptor(a, b)
    ensures Sound(DescriptorJson(a))
  {
    hide Sound;
    DescriptorValues(a, b);
    SameByParts(DescriptorJson(a).members, DescriptorJson(b).members);
  }

  /** Every summary is a JSON value without repeated or `__proto__` keys and infinite numbers, as its schema
      guarantees. */
  ghost predicate Tidy(evidence: PerEvidence<Descriptor>) {
    forall e :: Sound(evidence.Of(e).summary)
  }

  ghost predicate SameEvidence(a: PerEvidence<Descriptor>, b: PerEvidence<Descriptor>) {
    forall e :: SameDescriptor(a.Of(e), b.Of(e))
  }

  function Rank(e: Evidence): (k: nat)
    ensures k < |ORDER| && ORDER[k] == e
  {
    match e
    case Staging => 0
    case AppActionExactlyOnce => 1
    case Marketplace => 2
    case CliSessions => 3
    case CliAdmin => 4
    case MarketplaceReleaseRevocation => 5
    case WorkloadIssuerRotation => 6
    case AppEvidenceHealth => 7
    case AppSnapshotFenceProbe => 8
    case LearningEntities => 9
    case AppSnapshots => 10
    case AppSnapshotRecovery => 11
    case AppSnapshotReconciliation => 12
    case Recovery => 13
    case AuditRetention => 14
  }

  lemma OrderDistinct(i: nat, k: nat)
    requires i < k < |ORDER|
    ensures ORDER[i] != ORDER[k]
  {
    assert Rank(ORDER[i]) == i by { assert |ORDER| == 15; }
    assert Rank(ORDER[k]) == k;
  }

  /** Length and first letter of each key. */
  lemma KeyShape(e: Evidence)
    ensures KeyOf(e) != "" && |KeyOf(e)| != 9 && KeyOf(e)[0] < 128 as char
    ensures (|KeyOf(e)|, KeyOf(e)[0]) == ([
      (7, 's'), (20, 'a'), (11, 'm'), (11, 'c'), (8, 'c'), (28, 'm'), (22, 'w'), (17, 'a'), (21, 'a'),
      (16, 'l'), (12, 'a'), (19, 'a'), (25, 'a'), (8, 'r'), (14, 'a')])[Rank(e)]
  {
    match e
    case _ =>
  }

  lemma EvidenceKeysDiffer(e: Evidence, f: Evidence)
    requires e != f
    ensures |KeyOf(e)| != |KeyOf(f)| || KeyOf(e)[0] != KeyOf(f)[0]
  {
    hide KeyOf;
    KeyShape(e);
    KeyShape(f);
  }

  lemma EvidenceKeys(evidence: PerEvidence<Descriptor>)
    ensures TellableKeys(EvidenceMembers(evidence))
    ensures forall i :: 0 <= i < |ORDER| ==> |EvidenceMembers(evidence)[i].key| != 9
  {
    hide KeyOf;
    var m := EvidenceMembers(evidence);
    forall i
      ensures 0 <= i < |ORDER| ==>
        KeyOf(ORDER[i]) != "" && |KeyOf(ORDER[i])| != 9 && KeyOf(ORDER[i])[0] < 128 as char
    {
      if 0 <= i < |ORDER| { KeyShape(ORDER[i]); }
    }
    forall i, k | 0 <= i < k < |ORDER|
      ensures m[i].key != [] && m[k].key != [] && (|m[i].key| != |m[k].key| || m[i].key[0] != m[k].key[0])
    {
      OrderDistinct(i, k);
      EvidenceKeysDiffer(ORDER[i], ORDER[k]);
      LettersDiffer(KeyOf(ORDER[i])[0], KeyOf(ORDER[k])[0]);
    }
  }

  lemma LettersDiffer(c: char, d: char)
    requires c < 128 as char && d < 128 as char
    ensures c != d ==> (c as int) % 0x1_0000 != (d as int) % 0x1_0000
  {}

  lemma EvidenceSame(a: PerEvidence<Descriptor>, b: PerEvidence<Descriptor>)
    requires Tidy(a)
    ensures Meaning(Obj(EvidenceMembers(a))) == Meaning(Obj(EvidenceMembers(b))) <==> SameEvidence(a, b)
    ensures Sound(Obj(EvidenceMembers(a)))
  {
    hide KeyOf, DescriptorJson, Meaning, SameDescriptor, Sound;
    var m, n := EvidenceMembers(a), EvidenceMembers(b);
    EvidenceKeys(a);
    EvidenceKeys(b);
    ObjSame(m, n);
    forall e
      ensures Meaning(DescriptorJson(a.Of(e))) == Meaning(DescriptorJson(b.Of(e)))
        <==> SameDescriptor(a.Of(e), b.Of(e))
    {
      DescriptorSame(a.Of(e), b.Of(e));
    }
    forall i | 0 <= i < |ORDER| ensures Sound(m[i].value) { DescriptorSame(a.Of(ORDER[i]), b.Of(ORDER[i])); }
    ObjSound(m);
    if Meaning(Obj(m)) == Meaning(Obj(n)) {
      forall e ensures SameDescriptor(a.Of(e), b.Of(e)) {
        assert m[Rank(e)].value == DescriptorJson(a.Of(e)) && n[Rank(e)].value == DescriptorJson(b.Of(e));
      }
    }
  }

  // ----- the digested set and the whole manifest

  ghost predicate SameSet(a: Manifest, b: Manifest) {
    a.release == b.release && a.scope == b.scope && SameEvidence(a.evidence, b.evidence)
  }

  function SetJson(m: Manifest): Json { EvidenceSetJson(m.release, m.scope, m.evidence) }

  lemma SetValues(a: Manifest, b: Manifest)
    requires Tidy(a.evidence)
    ensures var m, n := SetJson(a).members, SetJson(b).members;
      (forall i :: 0 <= i < 3 ==> Meaning(m[i].value) == Meaning(n[i].value)) <==> SameSet(a, b)
    ensures forall i :: 0 <= i < 3 ==> Sound(SetJson(a).members[i].value)
  {
    hide ReleaseJson, ScopeJson, EvidenceMembers, SameEvidence, Tidy, Sound, Meaning;
    var m, n := SetJson(a).members, SetJson(b).members;
    ReleaseSame(a.release, b.release);
    ScopeSame(a.scope, b.scope);
    EvidenceSame(a.evidence, b.evidence);
    if forall i :: 0 <= i < 3 ==> Meaning(m[i].value) == Meaning(n[i].value) {
      assert Meaning(m[0].value) == Meaning(n[0].value) && Meaning(m[1].value) == Meaning(n[1].value);
      assert Meaning(m[2].value) == Meaning(n[2].value);
    }
  }

  lemma SetSame(a: Manifest, b: Manifest)
    requires Tidy(a.evidence)
    ensures Meaning(SetJson(a)) == Meaning(SetJson(b)) <==> SameSet(a, b)
    ensures Sound(SetJson(a))
  {
    hide ReleaseJson, ScopeJson, EvidenceMembers, SameSet, Tidy, Sound;
    SetValues(a, b);
    SameByParts(SetJson(a).members, SetJson(b).members);
  }

  /** The same manifest, up to key order inside the summaries. */
  ghost predicate SameManifest(a: Manifest, b: Manifest) {
    SameSet(a, b) && a.evidenceSetDigest == b.evidenceSetDigest
  }

  lemma ManifestValues(a: Manifest, b: Manifest)
    requires Tidy(a.evidence)
    ensures var m, n := ManifestMembers(a), ManifestMembers(b);
      (forall i :: 0 <= i < 5 ==> Meaning(m[i].value) == Meaning(n[i].value)) <==> SameManifest(a, b)
    ensures forall i :: 0 <= i < 5 ==> Sound(ManifestMembers(a)[i].value)
  {
    hide ReleaseJson, ScopeJson, EvidenceMembers, SameEvidence, Tidy, Sound, Meaning, Utf16;
    var m, n := ManifestMembers(a), ManifestMembers(b);
    TextSame("loopgraph-production-promotion-evidence/v16", "loopgraph-production-promotion-evidence/v16");
    ReleaseSame(a.release, b.release);
    ScopeSame(a.scope, b.scope);
    EvidenceSame(a.evidence, b.evidence);
    TextSame(a.evidenceSetDigest, b.evidenceSetDigest);
    if forall i :: 0 <= i < 5 ==> Meaning(m[i].value) == Meaning(n[i].value) {
      assert Meaning(m[1].value) == Meaning(n[1].value) && Meaning(m[2].value) == Meaning(n[2].value);
      assert Meaning(m[3].value) == Meaning(n[3].value) && Meaning(m[4].value) == Meaning(n[4].value);
    }
  }

  lemma ManifestKeys(m: Manifest)
    ensures TellableKeys(ManifestMembers(m))
    ensures forall i :: 0 <= i < 5 ==> |ManifestMembers(m)[i].key| != 9
  {
    hide ReleaseJson, ScopeJson, EvidenceMembers, Utf16;
  }

  lemma ManifestSame(a: Manifest, b: Manifest)
    requires Tidy(a.evidence)
    ensures Meaning(ManifestJson(a)) == Meaning(ManifestJson(b)) <==> SameManifest(a, b)
    ensures Sound(ManifestJson(a))
  {
    hide ReleaseJson, ScopeJson, EvidenceMembers, SameManifest, Tidy, Sound, Utf16;
    ManifestValues(a, b);
    ManifestKeys(a);
    SameByParts(ManifestMembers(a), ManifestMembers(b));
  }

  /** The comparison `verify` makes, on manifests: equal canonical texts are equal manifests. */
  lemma ManifestTextIff(a: Manifest, b: Manifest)
    requires Tidy(a.evidence) && Tidy(b.evidence)
    ensures CanonicalText(ManifestJson(a)) == CanonicalText(ManifestJson(b)) <==> SameManifest(a, b)
  {
    hide ManifestJson, SameManifest, CanonicalText, Meaning;
    ManifestSame(a, b);
    ManifestSame(b, a);
    PlainTextIff(ManifestJson(a), ManifestJson(b));
  }

  lemma SetTextIff(a: Manifest, b: Manifest)
    requires Tidy(a.evidence) && Tidy(b.evidence)
    ensures CanonicalText(SetJson(a)) == CanonicalText(SetJson(b)) <==> SameSet(a, b)
  {
    hide SetJson, SameSet, CanonicalText, Meaning;
    SetSame(a, b);
    SetSame(b, a);
    PlainTextIff(SetJson(a), SetJson(b));
  }
}
