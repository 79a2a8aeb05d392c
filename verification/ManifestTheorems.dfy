/** Theorems about building and verifying the evidence manifest. */
module ManifestTheorems {
  import opened Wrappers
  import opened JsonText
  import opened CanonicalJson
  import opened TextFidelity
  import opened AuditProtocol
  import opened ReleaseControls
  import opened EvidenceManifest
  import opened ManifestBinding
  import SR = SnapshotReceipt

  // ----- premise on the schemas

  /** The schemas return what they were given, up to key order, without `__proto__` members: strict objects
      refuse such a member and records, as `evidenceRecordCounts` is one, leave it out. Every number of a
      receipt is an integer or bounded, so infinite numbers are refused. */
  ghost predicate ParsedFaithfully(inputs: PerEvidence<Json>, s: ReceiptSet) {
    forall e ::
      && Sound(s.each.Of(e).value) && Sound(s.each.Of(e).summary)
      && Meaning(s.each.Of(e).value) == Meaning(DropProto(inputs.Of(e)))
  }

  ghost predicate Faithful(p: Platform) {
    forall inputs :: p.parse(inputs).Ok? ==> ParsedFaithfully(inputs, p.parse(inputs).value)
  }

  // ----- freshness

  lemma {:induction false} FirstStaleIff(p: Platform, s: ReceiptSet, now: int, age: int, kinds: seq<Evidence>)
    ensures FirstStale(p, s, now, age, kinds).None? <==>
      forall e :: e in kinds ==> Fresh(p, s.each.Of(e).completedAt, now, age)
  {
    if kinds == [] {
    } else {
      FirstStaleIff(p, s, now, age, kinds[1..]);
      assert kinds == [kinds[0]] + kinds[1..];
    }
  }

  lemma AllKindsFresh(p: Platform, s: ReceiptSet, now: int, age: int)
    ensures FirstStale(p, s, now, age, ORDER).None? <==>
      forall e :: Fresh(p, s.each.Of(e).completedAt, now, age)
  {
    FirstStaleIff(p, s, now, age, ORDER);
    forall e: Evidence ensures e in ORDER { assert ORDER[Rank(e)] == e; }
  }

  // ----- verify accepts exactly the rebuilt manifest

  ghost predicate Accepts(p: Platform, m: Manifest, inputs: PerEvidence<Json>, config: Config, now: int) {
    && p.manifestSchema(m)
    && Fresh(p, m.release.generatedAt, now, config.maximumAgeMinutes)
    && var rebuilt := Build(p, inputs, config, p.parseTime(m.release.generatedAt).value);
    && rebuilt.Ok?
    && SameManifest(rebuilt.value, m)
    && forall e :: Fresh(p, m.evidence.Of(e).completedAt, now, config.maximumAgeMinutes)
  }

  lemma BuiltFrom(p: Platform, inputs: PerEvidence<Json>, config: Config, generatedAt: int)
    requires Faithful(p) && Build(p, inputs, config, generatedAt).Ok?
    ensures Parse(p, inputs).Ok?
    ensures var s, m := Parse(p, inputs).value, Build(p, inputs, config, generatedAt).value;
      && ParsedFaithfully(inputs, s)
      && Tidy(m.evidence)
      && s.drain.checkpoints.Some?
      && p.manifestSchema(m)
      && p.trustedOrigin(config.deploymentOrigin).Some?
      && ReceiptsVerdict(p, s, config, p.trustedOrigin(config.deploymentOrigin).value, generatedAt).None?
      && m == Assemble(p, s, config, p.trustedOrigin(config.deploymentOrigin).value, generatedAt)
      && m.evidence == DescriptorsOf(p, s.each)
  {
    hide ReceiptsVerdict, DescriptorsOf, Valid, Plain, Meaning, CanonicalText, EvidenceSetJson,
         ReceiptSchemaHolds, SR.GateAccepts;
    var s := Parse(p, inputs).value;
    forall e ensures DescriptorsOf(p, s.each).Of(e).summary == s.each.Of(e).summary {}
  }

  lemma FreshParses(p: Platform, time: string, now: int, age: int)
    requires Fresh(p, time, now, age)
    ensures p.parseTime(time).Some?
  {}

  /** Equal manifests complete their evidence at the same times: those of the receipts. */
  lemma SameTimes(p: Platform, s: ReceiptSet, rebuilt: Manifest, m: Manifest)
    requires SameManifest(rebuilt, m) && rebuilt.evidence == DescriptorsOf(p, s.each)
    ensures forall e :: m.evidence.Of(e).completedAt == s.each.Of(e).completedAt
  {
    forall e ensures m.evidence.Of(e).completedAt == s.each.Of(e).completedAt {
      assert SameDescriptor(rebuilt.evidence.Of(e), m.evidence.Of(e));
    }
  }

  /** `verify` accepts a manifest exactly when it is, up to key order, what the receipts rebuild to at
      the manifest's own time, when it and all its evidence are fresh, and when an upstream digest, if
      given, is its own. */
  lemma VerifyIff(p: Platform, m: Manifest, inputs: PerEvidence<Json>, config: Config, now: int, expected: string)
    requires Faithful(p) && Tidy(m.evidence)
    ensures Verify(p, m, inputs, config, now, expected).Ok? <==>
      Accepts(p, m, inputs, config, now) && (expected == "" || expected == m.evidenceSetDigest)
    ensures Verify(p, m, inputs, config, now, expected).Ok? ==>
      Verify(p, m, inputs, config, now, expected).value == m
  {
    hide Build, Parse, FirstStale, ManifestJson, CanonicalText, Fresh, SameManifest, Faithful, Tidy;
    if p.manifestSchema(m) && Fresh(p, m.release.generatedAt, now, config.maximumAgeMinutes) {
      FreshParses(p, m.release.generatedAt, now, config.maximumAgeMinutes);
      var t := p.parseTime(m.release.generatedAt).value;
      if Build(p, inputs, config, t).Ok? {
        BuiltFrom(p, inputs, config, t);
        var s, rebuilt := Parse(p, inputs).value, Build(p, inputs, config, t).value;
        ManifestTextIff(rebuilt, m);
        AllKindsFresh(p, s, now, config.maximumAgeMinutes);
        if SameManifest(rebuilt, m) {
          SameTimes(p, s, rebuilt, m);
        }
      }
    }
  }

  // ----- when a built manifest verifies

  function TimeOf(p: Platform, text: string): int {
    var t := p.parseTime(text);
    if t.Some? then t.value else 0
  }

  /** The times a manifest carries: its own and those of its evidence. */
  function Times(p: Platform, m: Manifest): (r: seq<int>)
    ensures |r| == 1 + |ORDER|
    ensures r[0] == TimeOf(p, m.release.generatedAt)
    ensures forall i :: 0 <= i < |ORDER| ==> r[i + 1] == TimeOf(p, m.evidence.Of(ORDER[i]).completedAt)
  {
    [TimeOf(p, m.release.generatedAt)] +
    seq(|ORDER|, i requires 0 <= i < |ORDER| => TimeOf(p, m.evidence.Of(ORDER[i]).completedAt))
  }

  function Latest(times: seq<int>): int
    requires times != []
  {
    if |times| == 1 || Latest(times[1..]) < times[0] then times[0] else Latest(times[1..])
  }

  function Earliest(times: seq<int>): int
    requires times != []
  {
    if |times| == 1 || times[0] < Earliest(times[1..]) then times[0] else Earliest(times[1..])
  }

  lemma {:induction false} WindowIff(times: seq<int>, now: int, age: int)
    requires times != []
    ensures (forall i :: 0 <= i < |times| ==> -(CLOCK_SKEW as int) <= now - times[i] <= age)
      <==> Latest(times) - CLOCK_SKEW <= now <= Earliest(times) + age
  {
    if |times| <= 1 {
    } else {
      var rest := times[1..];
      WindowIff(rest, now, age);
      assert forall i :: 0 < i < |times| ==> times[i] == rest[i - 1];
      assert forall i :: 0 <= i < |rest| ==> times[i + 1] == rest[i];
    }
  }

  lemma FreshIff(p: Platform, time: string, now: int, age: int)
    ensures Fresh(p, time, now, age) <==>
      p.parseTime(time).Some? && -(CLOCK_SKEW as int) <= now - TimeOf(p, time) <= age * 60_000
  {}

  /** A manifest and its evidence are fresh on one interval of time: from five minutes before the latest
      of their times to the maximum age after the earliest. */
  lemma FreshWindow(p: Platform, m: Manifest, now: int, age: int)
    requires p.parseTime(m.release.generatedAt).Some?
    requires forall e :: p.parseTime(m.evidence.Of(e).completedAt).Some?
    ensures
      (Fresh(p, m.release.generatedAt, now, age) && forall e :: Fresh(p, m.evidence.Of(e).completedAt, now, age))
      <==> Latest(Times(p, m)) - CLOCK_SKEW <= now <= Earliest(Times(p, m)) + age * 60_000
  {
    hide Fresh, Latest, Earliest, TimeOf;
    var times := Times(p, m);
    WindowIff(times, now, age * 60_000);
    FreshIff(p, m.release.generatedAt, now, age);
    forall e ensures Fresh(p, m.evidence.Of(e).completedAt, now, age) <==>
      -(CLOCK_SKEW as int) <= now - times[Rank(e) + 1] <= age * 60_000
    {
      FreshIff(p, m.evidence.Of(e).completedAt, now, age);
    }
    if forall e :: Fresh(p, m.evidence.Of(e).completedAt, now, age) {
      forall i | 0 < i < |times| ensures -(CLOCK_SKEW as int) <= now - times[i] <= age * 60_000 {
        FreshIff(p, m.evidence.Of(ORDER[i - 1]).completedAt, now, age);
      }
    }
  }

  /** A built manifest verifies against its own receipts exactly while it and its evidence are fresh:
      whatever was built at `generatedAt` is accepted on one interval of time, which holds
      `generatedAt` itself. The premise is that printed times parse back. */
  lemma BuiltVerifiesIff(p: Platform, inputs: PerEvidence<Json>, config: Config, generatedAt: int,
                         m: Manifest, now: int, expected: string)
    requires Faithful(p) && p.parseTime(p.printTime(generatedAt)) == Some(generatedAt)
    requires Build(p, inputs, config, generatedAt) == Ok(m)
    ensures Verify(p, m, inputs, config, now, expected).Ok? <==>
      && (expected == "" || expected == m.evidenceSetDigest)
      && Latest(Times(p, m)) - CLOCK_SKEW <= now <= Earliest(Times(p, m)) + config.maximumAgeMinutes * 60_000
    ensures Latest(Times(p, m)) - CLOCK_SKEW <= generatedAt
         <= Earliest(Times(p, m)) + config.maximumAgeMinutes * 60_000
  {
    hide Build, Verify, Parse, SameManifest, Times, Latest, Earliest, Assemble, Fresh;
    BuiltFrom(p, inputs, config, generatedAt);
    OwnTime(p, inputs, config, generatedAt, m);
    ManifestIsItself(m);
    VerifyIff(p, m, inputs, config, now, expected);
    FreshWindow(p, m, now, config.maximumAgeMinutes);
    FreshWindow(p, m, generatedAt, config.maximumAgeMinutes);
  }

  lemma ManifestIsItself(m: Manifest)
    ensures SameManifest(m, m)
  {}

  /** A built manifest carries the time it was built at, and was fresh then. */
  lemma OwnTime(p: Platform, inputs: PerEvidence<Json>, config: Config, generatedAt: int, m: Manifest)
    requires Faithful(p) && p.parseTime(p.printTime(generatedAt)) == Some(generatedAt)
    requires Build(p, inputs, config, generatedAt) == Ok(m)
    ensures p.parseTime(m.release.generatedAt) == Some(generatedAt)
    ensures Fresh(p, m.release.generatedAt, generatedAt, config.maximumAgeMinutes)
    ensures forall e :: Fresh(p, m.evidence.Of(e).completedAt, generatedAt, config.maximumAgeMinutes)
    ensures forall e :: p.parseTime(m.evidence.Of(e).completedAt).Some?
  {
    hide Build, Parse, FirstStale, FromDeployment, DistinctReplicas, StorageBound, TenantBound,
         IdentitiesBound, ControlVerdict, ListVerdict, CheckpointsProved, AckBinding, DescriptorsOf;
    BuiltFrom(p, inputs, config, generatedAt);
    var s := Parse(p, inputs).value;
    AllKindsFresh(p, s, generatedAt, config.maximumAgeMinutes);
    forall e ensures m.evidence.Of(e).completedAt == s.each.Of(e).completedAt {}
  }

  // ----- the digest binds release, scope and receipts

  /** The texts whose digests a built manifest depends on. */
  function Hashed(p: Platform, inputs: PerEvidence<Json>, m: Manifest): (r: seq<Text>)
    requires Parse(p, inputs).Ok?
    ensures |r| == 1 + |ORDER|
    ensures r[0] == CanonicalText(SetJson(m))
    ensures forall i :: 0 <= i < |ORDER| ==> r[i + 1] == CanonicalText(Parse(p, inputs).value.each.Of(ORDER[i]).value)
  {
    [CanonicalText(SetJson(m))] +
    seq(|ORDER|, i requires 0 <= i < |ORDER| => CanonicalText(Parse(p, inputs).value.each.Of(ORDER[i]).value))
  }

  ghost predicate NoCollision(sha: Text -> string, a: seq<Text>, b: seq<Text>) {
    forall i, k :: 0 <= i < |a| && 0 <= k < |b| && sha(a[i]) == sha(b[k]) ==> a[i] == b[k]
  }

  /** Two builds with the same `evidenceSetDigest` have the same release and scope, and were given the
      same fifteen receipts up to key order and `__proto__` members, unless two of the texts they
      digested collide. */
  lemma DigestBindsReceipts(p: Platform, a: PerEvidence<Json>, ca: Config, ta: int, ma: Manifest,
                            b: PerEvidence<Json>, cb: Config, tb: int, mb: Manifest)
    requires Faithful(p)
    requires Build(p, a, ca, ta) == Ok(ma) && Build(p, b, cb, tb) == Ok(mb)
    requires Parse(p, a).Ok? && Parse(p, b).Ok? && NoCollision(p.sha, Hashed(p, a, ma), Hashed(p, b, mb))
    requires ma.evidenceSetDigest == mb.evidenceSetDigest
    ensures ma.release == mb.release && ma.scope == mb.scope
    ensures forall e :: Meaning(DropProto(a.Of(e))) == Meaning(DropProto(b.Of(e)))
  {
    hide Build, Parse, ReceiptsVerdict, CanonicalText, SetJson, EvidenceSetJson, Meaning, DescriptorsOf,
         Hashed, Tidy, Sound;
    BuiltFrom(p, a, ca, ta);
    BuiltFrom(p, b, cb, tb);
    var x, y := Hashed(p, a, ma), Hashed(p, b, mb);
    DigestIsOfSet(p, Parse(p, a).value, ca, ta, ma);
    DigestIsOfSet(p, Parse(p, b).value, cb, tb, mb);
    assert x[0] == y[0];
    SetTextIff(ma, mb);
    forall e ensures Meaning(DropProto(a.Of(e))) == Meaning(DropProto(b.Of(e))) {
      assert SameDescriptor(ma.evidence.Of(e), mb.evidence.Of(e));
      var v, w := Parse(p, a).value.each.Of(e).value, Parse(p, b).value.each.Of(e).value;
      var k := Rank(e) + 1;
      assert x[k] == CanonicalText(v) && y[k] == CanonicalText(w);
      SoundTextIff(v, w);
    }
  }

  /** Receipts without `__proto__` members are bound as they are: equal digests then mean equal receipts. */
  lemma DigestBindsPlainReceipts(p: Platform, a: PerEvidence<Json>, ca: Config, ta: int, ma: Manifest,
                                 b: PerEvidence<Json>, cb: Config, tb: int, mb: Manifest)
    requires Faithful(p)
    requires Build(p, a, ca, ta) == Ok(ma) && Build(p, b, cb, tb) == Ok(mb)
    requires Parse(p, a).Ok? && Parse(p, b).Ok? && NoCollision(p.sha, Hashed(p, a, ma), Hashed(p, b, mb))
    requires ma.evidenceSetDigest == mb.evidenceSetDigest
    requires forall e :: ProtoFree(a.Of(e)) && ProtoFree(b.Of(e))
    ensures forall e :: Meaning(a.Of(e)) == Meaning(b.Of(e))
  {
    hide Build, Parse, Meaning, DropProto, Hashed, ProtoFree;
    DigestBindsReceipts(p, a, ca, ta, ma, b, cb, tb, mb);
    forall e ensures Meaning(a.Of(e)) == Meaning(b.Of(e)) {
      ProtoFreeDropsNothing(a.Of(e));
      ProtoFreeDropsNothing(b.Of(e));
    }
  }

  // ----- the same receipts give the same digest

  /** The same parsed receipts up to key order in the receipts and their summaries. */
  ghost predicate SameReceipts(s: ReceiptSet, t: ReceiptSet) {
    && s.(each := t.each) == t
    && forall e :: SameCommon(s.each.Of(e), t.each.Of(e))
  }

  ghost predicate SameCommon(c: Common, d: Common) {
    && c.(value := d.value, summary := d.summary) == d
    && Meaning(c.value) == Meaning(d.value) && Meaning(c.summary) == Meaning(d.summary)
  }

  ghost predicate SameInputs(a: PerEvidence<Json>, b: PerEvidence<Json>) {
    forall e :: Meaning(DropProto(a.Of(e))) == Meaning(DropProto(b.Of(e)))
  }

  /** What the schemas return depends on what they are given up to key order and `__proto__` members. */
  ghost predicate ParsesByMeaning(p: Platform) {
    forall a, b :: SameInputs(a, b) && p.parse(a).Ok? && p.parse(b).Ok? ==>
      SameReceipts(p.parse(a).value, p.parse(b).value)
  }

  /** For one configuration and time, two builds have the same `evidenceSetDigest` exactly when they were
      given the same receipts up to key order and `__proto__` members, unless digests collide. */
  lemma SameDigestIff(p: Platform, config: Config, t: int, a: PerEvidence<Json>, ma: Manifest,
                      b: PerEvidence<Json>, mb: Manifest)
    requires Faithful(p) && ParsesByMeaning(p)
    requires Build(p, a, config, t) == Ok(ma) && Build(p, b, config, t) == Ok(mb)
    requires Parse(p, a).Ok? && Parse(p, b).Ok? && NoCollision(p.sha, Hashed(p, a, ma), Hashed(p, b, mb))
    ensures ma.evidenceSetDigest == mb.evidenceSetDigest <==> SameInputs(a, b)
  {
    hide Build, Parse, ReceiptsVerdict, SameReceipts, Meaning, Hashed, Tidy, Sound, ParsesByMeaning;
    if ma.evidenceSetDigest == mb.evidenceSetDigest {
      DigestBindsReceipts(p, a, config, t, ma, b, config, t, mb);
    }
    if SameInputs(a, b) {
      BuiltFrom(p, a, config, t);
      BuiltFrom(p, b, config, t);
      ParsedAlike(p, a, b);
      AssembledAlike(p, Parse(p, a).value, Parse(p, b).value, config, t, ma, mb);
    }
  }

  lemma ParsedAlike(p: Platform, a: PerEvidence<Json>, b: PerEvidence<Json>)
    requires ParsesByMeaning(p) && SameInputs(a, b) && Parse(p, a).Ok? && Parse(p, b).Ok?
    ensures SameReceipts(Parse(p, a).value, Parse(p, b).value)
  {
    hide SameReceipts, SameInputs, SR.GateAccepts, ReceiptSchemaHolds;
  }

  lemma AssembledAlike(p: Platform, s: ReceiptSet, t: ReceiptSet, config: Config, time: int, ma: Manifest, mb: Manifest)
    requires SameReceipts(s, t) && p.trustedOrigin(config.deploymentOrigin).Some?
    requires ma == Assemble(p, s, config, p.trustedOrigin(config.deploymentOrigin).value, time)
    requires mb == Assemble(p, t, config, p.trustedOrigin(config.deploymentOrigin).value, time)
    requires Tidy(ma.evidence) && Tidy(mb.evidence)
    requires forall e :: Sound(s.each.Of(e).value) && Sound(t.each.Of(e).value)
    ensures ma.evidenceSetDigest == mb.evidenceSetDigest
  {
    hide CanonicalText, SetJson, Meaning, Sound, DescriptorsOf, Tidy, ProbeScope;
    forall e ensures SameDescriptor(ma.evidence.Of(e), mb.evidence.Of(e)) {
      SoundTextIff(s.each.Of(e).value, t.each.Of(e).value);
      assert SameCommon(s.each.Of(e), t.each.Of(e));
    }
    assert SameCommon(s.each.Of(AppSnapshots), t.each.Of(AppSnapshots));
    SetTextIff(ma, mb);
    DigestIsOfSet(p, s, config, time, ma);
    DigestIsOfSet(p, t, config, time, mb);
  }

  lemma DigestIsOfSet(p: Platform, s: ReceiptSet, config: Config, generatedAt: int, m: Manifest)
    requires p.trustedOrigin(config.deploymentOrigin).Some?
    requires m == Assemble(p, s, config, p.trustedOrigin(config.deploymentOrigin).value, generatedAt)
    ensures m.evidenceSetDigest == p.sha(CanonicalText(SetJson(m)))
  {
    hide CanonicalText, EvidenceSetJson, DescriptorsOf;
  }

  lemma SoundTextIff(a: Json, b: Json)
    requires Sound(a) && Sound(b)
    ensures CanonicalText(a) == CanonicalText(b) <==> Meaning(a) == Meaning(b)
  {
    hide CanonicalText, Meaning;
    PlainTextIff(a, b);
  }

  /** What an upstream digest pins: a manifest verified against the digest of an earlier build was
      verified with that build's receipts, release and scope. */
  lemma UpstreamDigestPins(p: Platform, built: PerEvidence<Json>, cb: Config, tb: int, mb: Manifest,
                           inputs: PerEvidence<Json>, config: Config, m: Manifest, now: int)
    requires Faithful(p) && Tidy(m.evidence)
    requires Build(p, built, cb, tb) == Ok(mb) && mb.evidenceSetDigest != ""
    requires Verify(p, m, inputs, config, now, mb.evidenceSetDigest).Ok?
    requires Parse(p, built).Ok? && Parse(p, inputs).Ok?
    requires NoCollision(p.sha, Hashed(p, built, mb), Hashed(p, inputs, m))
    ensures m.release == mb.release && m.scope == mb.scope
    ensures forall e :: Meaning(DropProto(inputs.Of(e))) == Meaning(DropProto(built.Of(e)))
  {
    hide Build, Parse, Verify, Meaning, Hashed, Tidy, Fresh, CanonicalText, SetJson;
    VerifyIff(p, m, inputs, config, now, mb.evidenceSetDigest);
    FreshParses(p, m.release.generatedAt, now, config.maximumAgeMinutes);
    var t := p.parseTime(m.release.generatedAt).value;
    var rebuilt := Build(p, inputs, config, t).value;
    BuiltFrom(p, inputs, config, t);
    SetTextIff(rebuilt, m);
    SameHashes(p, inputs, rebuilt, m);
    DigestBindsReceipts(p, built, cb, tb, mb, inputs, config, t, rebuilt);
  }

  lemma SameHashes(p: Platform, inputs: PerEvidence<Json>, a: Manifest, b: Manifest)
    requires Parse(p, inputs).Ok? && CanonicalText(SetJson(a)) == CanonicalText(SetJson(b))
    ensures Hashed(p, inputs, a) == Hashed(p, inputs, b)
  {
    hide Parse, CanonicalText, SetJson;
    var x, y := Hashed(p, inputs, a), Hashed(p, inputs, b);
    forall i | 0 <= i < |x| ensures x[i] == y[i] {
      if i > 0 { assert x[(i - 1) + 1] == y[(i - 1) + 1]; }
    }
  }

  // ----- exact controls

  ghost predicate ExactControls(e: Evidence, controls: seq<Control>) {
    && multiset(NamesOf(controls)) == multiset(Required(e))
    && (HasStatusTable(e) ==> forall c :: c in controls ==> c.status in Allowed(e, c.name))
  }

  lemma {:induction false} ControlVerdictIff(s: ReceiptSet, kinds: seq<Evidence>)
    requires forall e :: e in kinds ==> ListedHere(e)
    ensures ControlVerdict(s, kinds).None? <==>
      && (forall e :: e in kinds ==> ExactControls(e, s.each.Of(e).controls))
      && (Staging in kinds ==> s.allowedRequests == s.quotaLimit)
  {
    hide ControlsHold, ExactControls, Required;
    if kinds == [] {
    } else {
      assert kinds == [kinds[0]] + kinds[1..];
      ControlVerdictIff(s, kinds[1..]);
      ExactControlsIff(kinds[0], s.each.Of(kinds[0]).controls);
    }
  }

  lemma ExactControlsIff(e: Evidence, controls: seq<Control>)
    requires ListedHere(e)
    ensures ControlsHold(e, controls) <==> ExactControls(e, controls)
  {
    hide ControlsHold, Required, Allowed;
    ControlsHoldIff(e, controls);
  }

  /** Whenever build succeeds every listed receipt holds a permutation of its required controls with
      allowed statuses, and the reconciliation checks, the recovered tables and the drain checkpoints
      are permutations of their lists. */
  lemma BuildMeansExactControls(p: Platform, inputs: PerEvidence<Json>, config: Config, generatedAt: int)
    requires Distinct(p.recoveryTables)
    requires Build(p, inputs, config, generatedAt).Ok?
    ensures Parse(p, inputs).Ok?
    ensures AllControlsExact(p, Parse(p, inputs).value)
  {
    hide ReceiptsVerdict, AllControlsExact, Assemble, ReceiptSchemaHolds, SR.GateAccepts;
    VerdictMeansExact(p, Parse(p, inputs).value, config, p.trustedOrigin(config.deploymentOrigin).value, generatedAt);
  }

  ghost predicate AllControlsExact(p: Platform, s: ReceiptSet) {
    && (forall e :: e in CONTROLLED ==> ExactControls(e, s.each.Of(e).controls))
    && s.allowedRequests == s.quotaLimit
    && multiset(CheckNames(s.reconciliation.checks)) == multiset(SR.CHECK_NAMES)
    && multiset(s.recoveredTables) == multiset(p.recoveryTables)
    && s.drain.checkpoints.Some?
    && multiset(CheckpointNames(s.drain.checkpoints.value)) == multiset(RELEASE_CHECKPOINT_NAMES)
  }

  lemma VerdictMeansExact(p: Platform, s: ReceiptSet, config: Config, origin: string, generatedAt: int)
    requires s.drain.checkpoints.Some? && Distinct(p.recoveryTables)
    requires ReceiptsVerdict(p, s, config, origin, generatedAt).None?
    ensures AllControlsExact(p, s)
  {
    hide ReceiptsVerdict, ControlVerdict, ListVerdict, ExactControls;
    VerdictParts(p, s, config, origin, generatedAt);
    ControlVerdictIff(s, CONTROLLED);
    assert CONTROLLED[0] in CONTROLLED;
    ListsArePermutations(p, s);
  }

  lemma VerdictParts(p: Platform, s: ReceiptSet, config: Config, origin: string, generatedAt: int)
    requires s.drain.checkpoints.Some? && ReceiptsVerdict(p, s, config, origin, generatedAt).None?
    ensures FirstStale(p, s, generatedAt, config.maximumAgeMinutes, ORDER).None?
    ensures ControlVerdict(s, CONTROLLED).None? && ListVerdict(p, s).None?
    ensures CheckpointsProved(s) && AckBinding(p, s.drain, config).None?
  {
    hide FirstStale, FromDeployment, DistinctReplicas, StorageBound, TenantBound, IdentitiesBound,
         ControlVerdict, ListVerdict, CheckpointsProved, AckBinding;
  }

  lemma ListsArePermutations(p: Platform, s: ReceiptSet)
    requires s.drain.checkpoints.Some? && ListVerdict(p, s).None? && Distinct(p.recoveryTables)
    ensures multiset(CheckNames(s.reconciliation.checks)) == multiset(SR.CHECK_NAMES)
    ensures multiset(s.recoveredTables) == multiset(p.recoveryTables)
    ensures multiset(CheckpointNames(s.drain.checkpoints.value)) == multiset(RELEASE_CHECKPOINT_NAMES)
  {
    hide ExactNames;
    CheckNamesDistinct();
    CheckpointNamesDistinct();
    ExactNamesIff(CheckNames(s.reconciliation.checks), SR.CHECK_NAMES);
    ExactNamesIff(s.recoveredTables, p.recoveryTables);
    ExactNamesIff(CheckpointNames(s.drain.checkpoints.value), RELEASE_CHECKPOINT_NAMES);
  }

  lemma CheckNamesDistinct()
    ensures Distinct(SR.CHECK_NAMES)
  {
    forall i, k | 0 <= i < k < |SR.CHECK_NAMES| ensures SR.CHECK_NAMES[i] != SR.CHECK_NAMES[k] {
      assert |SR.CHECK_NAMES[i]| != |SR.CHECK_NAMES[k]| || SR.CHECK_NAMES[i][0] != SR.CHECK_NAMES[k][0];
    }
  }

  lemma CheckpointNamesDistinct()
    ensures Distinct(RELEASE_CHECKPOINT_NAMES)
  {
    forall i, k | 0 <= i < k < |RELEASE_CHECKPOINT_NAMES|
      ensures RELEASE_CHECKPOINT_NAMES[i] != RELEASE_CHECKPOINT_NAMES[k]
    {
      assert |RELEASE_CHECKPOINT_NAMES[i]| != |RELEASE_CHECKPOINT_NAMES[k]|;
    }
  }
}
