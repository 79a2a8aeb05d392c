/** The reconciliation receipt (scripts/reconcile-hosted-app-snapshots.ts) and the refinements the
    evidence manifest puts on it (scripts/production-evidence-manifest.ts). */
module SnapshotReceipt {
  import opened Wrappers
  import opened SnapshotStore
  import opened SnapshotReconciliation
  import opened SnapshotTheorems

  /** Digests of canonical JSON, left uninterpreted: of a scope with the expected fence status, of a
      scope with a generation, and of a list of object keys. */
  datatype Digests = Digests(
    fence: string -> string, generation: (string, nat) -> string, inventory: seq<string> -> string)

  datatype Check = Check(name: string, ok: bool)

  datatype ReconciliationReceipt = ReconciliationReceipt(
    scopeDigest: string, inventoryFenceDigest: string, inventoryPasses: nat, inventoryGeneration: nat,
    inventoryGenerationDigest: string, registriesScanned: nat, counts: Counts,
    storageObjects: nat, referenced: nat, unreferenced: nat, malformed: nat,
    unreferencedInventoryDigest: string, healthy: bool, checks: seq<Check>)

  datatype Policy = Policy(scopeDigest: string, expectedInventoryDigest: string, allowEmpty: bool)

  const CHECK_NAMES: seq<string> := [
    "tenant_registry_scan", "pinned_scope_identity", "live_mutation_fence", "non_empty_inventory_policy",
    "durable_descriptor_authority", "exact_archive_verification", "stable_cross_store_inventory",
    "exact_storage_inventory", "pinned_unreferenced_retention", "aggregate_only_receipt"]

  /** `reconcileHostedAppSnapshots`, once the fence is attested and a stable pass is at hand. */
  function ReceiptOf(d: Digests, policy: Policy, stable: Stable): ReconciliationReceipt {
    var data := stable.pass.data;
    var counts := data.counts;
    var inventory := d.inventory(data.retention.unreferencedKeys);
    var notEmpty := counts.detached > 0 || policy.allowEmpty;
    var pinned := inventory == policy.expectedInventoryDigest;
    ReconciliationReceipt(
      policy.scopeDigest, d.fence(policy.scopeDigest), stable.passes, stable.pass.generationAfter,
      d.generation(policy.scopeDigest, stable.pass.generationAfter), |data.registries|, counts,
      data.retention.storageObjects, data.retention.referenced, data.retention.unreferenced,
      data.retention.malformed, inventory,
      Healthy(counts) && notEmpty && data.retention.malformed == 0 && pinned,
      [Check(CHECK_NAMES[0], true), Check(CHECK_NAMES[1], true), Check(CHECK_NAMES[2], true),
       Check(CHECK_NAMES[3], notEmpty), Check(CHECK_NAMES[4], counts.untracked == 0),
       Check(CHECK_NAMES[5], counts.missing == 0 && counts.corrupt == 0 && counts.unavailable == 0),
       Check(CHECK_NAMES[6], stable.passes >= 2), Check(CHECK_NAMES[7], data.retention.malformed == 0),
       Check(CHECK_NAMES[8], pinned), Check(CHECK_NAMES[9], true)])
  }

  /** The manifest's schema and refinements for this receipt. */
  predicate GateAccepts(d: Digests, r: ReconciliationReceipt) {
    && 2 <= r.inventoryPasses <= 4
    && r.counts.missing == 0 && r.counts.corrupt == 0 && r.counts.untracked == 0 && r.counts.unavailable == 0
    && r.malformed == 0 && r.healthy
    && |r.checks| == |CHECK_NAMES| && (forall i :: 0 <= i < |r.checks| ==> r.checks[i].ok)
    && r.counts.verified == r.counts.detached
    && r.referenced + r.unreferenced == r.storageObjects
    && r.referenced <= r.counts.verified
    && r.inventoryFenceDigest == d.fence(r.scopeDigest)
    && r.inventoryGenerationDigest == d.generation(r.scopeDigest, r.inventoryGeneration)
  }

  // ----- counting

  /** Object keys are unique, and are the keys of the stored archives. */
  ghost predicate WellFormed(w: World) {
    Distinct(w.keys) && forall k :: k in w.keys <==> k in w.contents
  }

  lemma {:induction false} ReferencedAreKeys(keys: seq<string>, expected: set<string>)
    requires Distinct(keys)
    ensures |keys| == |Unreferenced(keys, expected)| + |set k | k in keys && k in expected|
  {
    if keys == [] {
    } else {
      ReferencedAreKeys(keys[1..], expected);
      var rest := set k | k in keys[1..] && k in expected;
      assert keys[0] !in keys[1..];
      assert (set k | k in keys && k in expected) == (if keys[0] in expected then rest + {keys[0]} else rest);
    }
  }

  function KeysOf(installations: seq<Installation>): set<string> {
    set i | i in installations && i.detached && i.descriptor.Some? :: i.descriptor.value.key
  }

  lemma KeysOfCons(i: Installation, rest: seq<Installation>)
    ensures KeysOf([i] + rest) == KeysOf(rest) + OwnKey(i)
  {
    var installations := [i] + rest;
    forall k | k in KeysOf(rest) + OwnKey(i) ensures k in KeysOf(installations) {
      if k in KeysOf(rest) {
        var j :| j in rest && j.detached && j.descriptor.Some? && j.descriptor.value.key == k;
        assert j in installations;
      } else {
        assert i in installations;
      }
    }
  }

  function OwnKey(i: Installation): set<string> {
    if i.detached && i.descriptor.Some? then {i.descriptor.value.key} else {}
  }

  lemma JudgedKey(w: World, i: Installation)
    ensures KeysCounted(w, OwnKey(i), Judge(w, i))
  {}

  /** Counts that cover some expected keys; when all detached installations are verified, every key is
      stored. */
  ghost predicate KeysCounted(w: World, keys: set<string>, c: Counts) {
    && |keys| <= c.detached && c.verified <= c.detached
    && (c.verified == c.detached ==> forall k :: k in keys ==> k in w.contents)
  }

  lemma KeysCountedJoin(w: World, a: set<string>, c: Counts, b: set<string>, d: Counts)
    requires KeysCounted(w, a, c) && KeysCounted(w, b, d)
    ensures KeysCounted(w, a + b, Add(c, d))
  {
    assert |a + b| <= |a| + |b|;
  }

  lemma {:induction false} DetachedKeys(w: World, installations: seq<Installation>)
    ensures KeysCounted(w, KeysOf(installations), JudgeAll(w, installations))
  {
    hide Judge, OwnKey;
    if installations == [] {
    } else {
      var i, rest := installations[0], installations[1..];
      DetachedKeys(w, rest);
      JudgedKey(w, i);
      assert installations == [i] + rest;
      KeysOfCons(i, rest);
      KeysCountedJoin(w, KeysOf(rest), JudgeAll(w, rest), OwnKey(i), Judge(w, i));
      assert Add(JudgeAll(w, rest), Judge(w, i)) == Add(Judge(w, i), JudgeAll(w, rest));
    }
  }

  lemma ExpectedKeysCons(g: Registry, rest: seq<Registry>)
    ensures ExpectedKeys([g] + rest) == KeysOf(g.installations) + ExpectedKeys(rest)
    ensures ExpectedKeys([]) == {}
  {
    assert ([g] + rest)[1..] == rest;
  }

  lemma {:induction false} ExpectedKeysBounded(w: World, registries: seq<Registry>)
    ensures KeysCounted(w, ExpectedKeys(registries), JudgeRegistries(w, registries))
  {
    hide KeysOf, JudgeAll;
    if registries == [] {
    } else {
      var g, rest := registries[0], registries[1..];
      hide ExpectedKeys, KeysCounted;
      ExpectedKeysBounded(w, rest);
      DetachedKeys(w, g.installations);
      assert registries == [g] + rest;
      ExpectedKeysCons(g, rest);
      KeysCountedJoin(w, KeysOf(g.installations), JudgeAll(w, g.installations),
                      ExpectedKeys(rest), JudgeRegistries(w, rest));
    }
  }

  /** Referenced objects never outnumber the detached installations, and when every detached
      installation is verified they are exactly the keys referred to. */
  lemma ReferencedBounded(w: World, registries: seq<Registry>)
    requires WellFormed(w)
    ensures RetentionOf(w, registries).referenced <= JudgeRegistries(w, registries).detached
    ensures Healthy(JudgeRegistries(w, registries)) ==>
      RetentionOf(w, registries).referenced == |ExpectedKeys(registries)|
  {
    var expected := ExpectedKeys(registries);
    var referenced := set k | k in w.keys && k in expected;
    ReferencedAreKeys(w.keys, expected);
    ExpectedKeysBounded(w, registries);
    assert referenced <= expected;
    SubsetSize(referenced, expected);
    if Healthy(JudgeRegistries(w, registries)) {
      assert referenced == expected;
    }
  }

  lemma SubsetSize(a: set<string>, b: set<string>)
    requires a <= b
    ensures |a| <= |b|
  {
    assert b == a + (b - a);
  }

  // ----- order independence

  lemma {:induction false} JudgeWithout(w: World, registries: seq<Registry>, i: nat)
    requires i < |registries|
    ensures JudgeRegistries(w, registries)
         == Add(JudgeAll(w, registries[i].installations), JudgeRegistries(w, registries[..i] + registries[i + 1..]))
  {
    if i == 0 {
      assert registries[..0] + registries[1..] == registries[1..];
    } else {
      JudgeWithout(w, registries[1..], i - 1);
      var rest := registries[..i] + registries[i + 1..];
      assert rest[1..] == registries[1..][..i - 1] + registries[1..][i..];
    }
  }

  /** On one state the counts do not depend on the order of the registries. */
  lemma {:induction false} JudgementIgnoresOrder(w: World, a: seq<Registry>, b: seq<Registry>)
    requires multiset(a) == multiset(b)
    ensures JudgeRegistries(w, a) == JudgeRegistries(w, b)
    decreases |a|
  {
    assert |a| == |multiset(a)| == |multiset(b)| == |b|;
    if a == [] {
    } else {
      assert a[0] in multiset(a);
      var j :| 0 <= j < |b| && b[j] == a[0];
      SameRest(a, b, j);
      JudgementIgnoresOrder(w, a[1..], b[..j] + b[j + 1..]);
      JudgeWithout(w, b, j);
    }
  }

  lemma SameRest<T(!new)>(a: seq<T>, b: seq<T>, j: nat)
    requires multiset(a) == multiset(b) && a != [] && j < |b| && b[j] == a[0]
    ensures multiset(a[1..]) == multiset(b[..j] + b[j + 1..])
  {
    assert a == [a[0]] + a[1..] && b == b[..j] + [b[j]] + b[j + 1..];
    assert multiset(a) == multiset{a[0]} + multiset(a[1..]);
    assert multiset(b) == multiset(b[..j]) + multiset{b[j]} + multiset(b[j + 1..]);
    assert multiset(b[..j] + b[j + 1..]) == multiset(b[..j]) + multiset(b[j + 1..]);
    assert multiset(a[1..]) == multiset(a) - multiset{a[0]};
  }

  function Total(results: seq<Counts>): Counts {
    if results == [] then NO_COUNTS else Add(results[0], Total(results[1..]))
  }

  /** The result of each registry, as read one after the other. */
  function ResultsOf(r: Reader, n: nat, registries: seq<Registry>): (results: seq<Counts>)
    ensures |results| == |registries|
    decreases |registries|
  {
    if registries == [] then []
    else
      var first := ReadInstallations(r, n, registries[0].installations, NO_COUNTS);
      [first.counts] + ResultsOf(r, first.next, registries[1..])
  }

  lemma {:induction false} AggregateIsTotal(
    r: Reader, n: nat, seen: set<string>, registries: seq<Registry>, acc: Counts)
    requires ReadRegistries(r, n, seen, registries, acc).result.Ok?
    ensures ReadRegistries(r, n, seen, registries, acc).result.value == Add(acc, Total(ResultsOf(r, n, registries)))
    decreases |registries|
  {
    hide ReadInstallations;
    if registries == [] {
      assert Total([]) == NO_COUNTS;
    } else {
      var first := ReadInstallations(r, n, registries[0].installations, NO_COUNTS);
      var rest := ResultsOf(r, first.next, registries[1..]);
      AggregateIsTotal(r, first.next, seen + {registries[0].workspaceId}, registries[1..], Add(acc, first.counts));
      assert ([first.counts] + rest)[1..] == rest;
      AddIsAssociative(acc, first.counts, Total(rest));
    }
  }

  lemma {:induction false} TotalWithout(results: seq<Counts>, i: nat)
    requires i < |results|
    ensures Total(results) == Add(results[i], Total(results[..i] + results[i + 1..]))
  {
    if i == 0 {
      assert results[..0] + results[1..] == results[1..];
    } else {
      TotalWithout(results[1..], i - 1);
      var rest := results[..i] + results[i + 1..];
      assert rest[1..] == results[1..][..i - 1] + results[1..][i..];
    }
  }

  lemma {:induction false} TotalIgnoresOrder(a: seq<Counts>, b: seq<Counts>)
    requires multiset(a) == multiset(b)
    ensures Total(a) == Total(b)
    decreases |a|
  {
    assert |a| == |multiset(a)| == |multiset(b)| == |b|;
    if a == [] {
    } else {
      assert a[0] in multiset(a);
      var j :| 0 <= j < |b| && b[j] == a[0];
      SameRest(a, b, j);
      TotalIgnoresOrder(a[1..], b[..j] + b[j + 1..]);
      TotalWithout(b, j);
    }
  }

  /** The aggregate is the sum of the per-registry results, each as it was read: the same results in any
      order, from whatever reads, give the same aggregate. */
  lemma AggregateIgnoresOrder(r: Reader, n: nat, a: seq<Registry>, r': Reader, n': nat, b: seq<Registry>)
    requires ReadRegistries(r, n, {}, a, NO_COUNTS).result.Ok? && ReadRegistries(r', n', {}, b, NO_COUNTS).result.Ok?
    requires multiset(ResultsOf(r, n, a)) == multiset(ResultsOf(r', n', b))
    ensures ReadRegistries(r, n, {}, a, NO_COUNTS).result == ReadRegistries(r', n', {}, b, NO_COUNTS).result
  {
    hide ReadRegistries, ResultsOf;
    AggregateIsTotal(r, n, {}, a, NO_COUNTS);
    AggregateIsTotal(r', n', {}, b, NO_COUNTS);
    TotalIgnoresOrder(ResultsOf(r, n, a), ResultsOf(r', n', b));
  }

  // ----- the gate

  /** A receipt built from a stable pass passes the manifest's gate exactly when it says it is healthy. */
  lemma GateAcceptsIffHealthy(
    d: Digests, policy: Policy, r: Reader, start: nat, digest: (nat, PassData) -> string, stable: Stable)
    requires Fenced(r) && forall c: nat :: WellFormed(r.history(c))
    requires StableFrom(r, start, 0, None, digest) == Ok(stable)
    ensures GateAccepts(d, ReceiptOf(d, policy, stable)) <==> ReceiptOf(d, policy, stable).healthy
  {
    hide ReadPass, StableFrom, RetentionOf;
    ReturnedPassIsAtomic(r, start, digest);
    var data := stable.pass.data;
    if ReceiptOf(d, policy, stable).healthy {
      var a, b, c :| start <= a && AtomicResult(r, digest, a, b, c, stable.pass);
      HealthySnapshotCounts(Seen(r, a), data);
      assert GateAccepts(d, ReceiptOf(d, policy, stable));
    }
  }

  lemma HealthySnapshotCounts(w: World, data: PassData)
    requires WellFormed(w) && Snapshot(w) == Ok(data) && Healthy(data.counts)
    ensures data.retention.referenced <= data.counts.verified
    ensures data.retention.referenced + data.retention.unreferenced == data.retention.storageObjects
  {
    ReferencedBounded(w, data.registries);
  }
}
