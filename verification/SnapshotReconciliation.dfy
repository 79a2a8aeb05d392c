/** The reconciliation pass and the stability loop of scripts/reconcile-hosted-app-snapshots.ts, with
    the per-registry reconciliation of packages/loopgraph/src/runtime/app-snapshot-reconciliation.ts. */
module SnapshotReconciliation {
  import opened Wrappers
  import opened SnapshotStore

  const MAX_PASSES: nat := 4
  const LIST_PAGE_SIZE: nat := 100
  const MAX_LIST_ENTRIES: nat := 50_000

  datatype Counts = Counts(detached: nat, verified: nat, missing: nat, corrupt: nat, untracked: nat, unavailable: nat)

  const NO_COUNTS := Counts(0, 0, 0, 0, 0, 0)

  function Add(a: Counts, b: Counts): Counts {
    Counts(a.detached + b.detached, a.verified + b.verified, a.missing + b.missing,
           a.corrupt + b.corrupt, a.untracked + b.untracked, a.unavailable + b.unavailable)
  }

  predicate Healthy(c: Counts) {
    c.verified == c.detached && c.missing == 0 && c.corrupt == 0 && c.untracked == 0 && c.unavailable == 0
  }

  datatype Retention = Retention(
    storageObjects: nat, referenced: nat, unreferenced: nat, malformed: nat, unreferencedKeys: seq<string>)

  datatype PassData = PassData(registries: seq<Registry>, counts: Counts, retention: Retention)

  datatype Pass = Pass(data: PassData, generationBefore: nat, generationAfter: nat, stabilityDigest: string)

  // ----- on one state

  /** `assertExact`. */
  predicate Intact(w: World, d: Descriptor) { d.key in w.contents && w.contents[d.key] == d.content }

  /** What one installation adds to the counts, judged on one state. */
  function Judge(w: World, i: Installation): Counts {
    if !i.detached then NO_COUNTS
    else if i.descriptor.None? then Counts(1, 0, 0, 0, 1, 0)
    else if i.descriptor.value.folder !in w.folders then Counts(1, 0, 1, 0, 0, 0)
    else if !Intact(w, i.descriptor.value) then Counts(1, 0, 0, 1, 0, 0)
    else Counts(1, 1, 0, 0, 0, 0)
  }

  function JudgeAll(w: World, installations: seq<Installation>): Counts {
    if installations == [] then NO_COUNTS
    else Add(Judge(w, installations[0]), JudgeAll(w, installations[1..]))
  }

  function JudgeRegistries(w: World, registries: seq<Registry>): Counts {
    if registries == [] then NO_COUNTS
    else Add(JudgeAll(w, registries[0].installations), JudgeRegistries(w, registries[1..]))
  }

  predicate DistinctWorkspaces(registries: seq<Registry>) {
    forall i, j :: 0 <= i < j < |registries| ==> registries[i].workspaceId != registries[j].workspaceId
  }

  /** The keys the detached installations refer to. */
  function ExpectedKeys(registries: seq<Registry>): set<string> {
    set r, i | r in registries && i in r.installations && i.detached && i.descriptor.Some? :: i.descriptor.value.key
  }

  function Unreferenced(keys: seq<string>, expected: set<string>): seq<string> {
    if keys == [] then []
    else (if keys[0] in expected then [] else [keys[0]]) + Unreferenced(keys[1..], expected)
  }

  function RetentionOf(w: World, registries: seq<Registry>): (r: Retention)
    ensures r.referenced + r.unreferenced == r.storageObjects == |w.keys|
  {
    var unreferenced := Unreferenced(w.keys, ExpectedKeys(registries));
    UnreferencedSize(w.keys, ExpectedKeys(registries));
    Retention(|w.keys|, |w.keys| - |unreferenced|, |unreferenced|, w.malformed, unreferenced)
  }

  lemma {:induction false} UnreferencedSize(keys: seq<string>, expected: set<string>)
    ensures |Unreferenced(keys, expected)| <= |keys|
  {
    if keys == [] {
    } else {
      UnreferencedSize(keys[1..], expected);
    }
  }

  /** The reconciliation of one state, computed at once. */
  function Snapshot(w: World): Result<PassData, ReadError> {
    match TableRegistries(w.rows)
    case Err(e) => Err(e)
    case Ok(registries) =>
      if !DistinctWorkspaces(registries) then Err(DuplicateWorkspace)
      else Ok(PassData(registries, JudgeRegistries(w, registries), RetentionOf(w, registries)))
  }

  // ----- read by read

  /** Counts read, and the number of the read after them. */
  datatype Tally = Tally(counts: Counts, next: nat)

  /** One detached installation: a read for `exists`, which lists the folder of its snapshot path, then
      one for `assertExact`. A fault in the first is counted as unavailable, in the second as corrupt. */
  function ReadInstallation(r: Reader, n: nat, i: Installation): Tally {
    if !i.detached then Tally(NO_COUNTS, n)
    else if i.descriptor.None? then Tally(Counts(1, 0, 0, 0, 1, 0), n)
    else if r.fault(n) then Tally(Counts(1, 0, 0, 0, 0, 1), n + 1)
    else if i.descriptor.value.folder !in Seen(r, n).folders then Tally(Counts(1, 0, 1, 0, 0, 0), n + 1)
    else if r.fault(n + 1) || !Intact(Seen(r, n + 1), i.descriptor.value)
    then Tally(Counts(1, 0, 0, 1, 0, 0), n + 2)
    else Tally(Counts(1, 1, 0, 0, 0, 0), n + 2)
  }

  function ReadInstallations(r: Reader, n: nat, installations: seq<Installation>, acc: Counts): Tally
    decreases |installations|
  {
    if installations == [] then Tally(acc, n)
    else
      var first := ReadInstallation(r, n, installations[0]);
      ReadInstallations(r, first.next, installations[1..], Add(acc, first.counts))
  }

  /** The registries still to reconcile; a workspace already seen stops the pass. */
  function ReadRegistries(r: Reader, n: nat, seen: set<string>, registries: seq<Registry>, acc: Counts)
    : Read<Counts>
    decreases |registries|
  {
    if registries == [] then Read(Ok(acc), n)
    else if registries[0].workspaceId in seen then Read(Err(DuplicateWorkspace), n)
    else
      var first := ReadInstallations(r, n, registries[0].installations, NO_COUNTS);
      ReadRegistries(r, first.next, seen + {registries[0].workspaceId}, registries[1..], Add(acc, first.counts))
  }

  /** `reconcileAppSnapshots`: counts over one registry's installations. */
  method ReconcileInstallations(r: Reader, n: nat, installations: seq<Installation>) returns (tally: Tally)
    ensures tally == ReadInstallations(r, n, installations, NO_COUNTS)
  {
    var result, next := NO_COUNTS, n;
    for i := 0 to |installations|
      invariant ReadInstallations(r, n, installations, NO_COUNTS)
             == ReadInstallations(r, next, installations[i..], result)
    {
      assert installations[i..][1..] == installations[i + 1..];
      var one := ReadInstallation(r, next, installations[i]);
      result, next := Add(result, one.counts), one.next;
    }
    return Tally(result, next);
  }

  /** `reconcileHostedAppSnapshotRegistries`: a running aggregate over the registries and the set of
      workspaces seen. */
  method ReconcileRegistries(r: Reader, n: nat, registries: seq<Registry>) returns (read: Read<Counts>)
    ensures read == ReadRegistries(r, n, {}, registries, NO_COUNTS)
  {
    var aggregate, workspaceIds, next := NO_COUNTS, {}, n;
    for i := 0 to |registries|
      invariant ReadRegistries(r, n, {}, registries, NO_COUNTS)
             == ReadRegistries(r, next, workspaceIds, registries[i..], aggregate)
    {
      var registry := registries[i];
      assert registries[i..][1..] == registries[i + 1..];
      if registry.workspaceId in workspaceIds {
        return Read(Err(DuplicateWorkspace), next);
      }
      workspaceIds := workspaceIds + {registry.workspaceId};
      var one := ReconcileInstallations(r, next, registry.installations);
      aggregate, next := Add(aggregate, one.counts), one.next;
    }
    return Read(Ok(aggregate), next);
  }

  /** The object listing, a page a read, up to the bound on entries. */
  function ListFrom(r: Reader, n: nat, from: nat, acc: seq<string>): Read<seq<string>>
    decreases MAX_LIST_ENTRIES + LIST_PAGE_SIZE - from, n
  {
    if r.fault(n) then Read(Err(InventoryUnavailable), n + 1)
    else
      var page := Page(Seen(r, n).keys, from, LIST_PAGE_SIZE);
      if from + |page| > MAX_LIST_ENTRIES then Read(Err(InventoryUnavailable), n + 1)
      else if |page| < LIST_PAGE_SIZE then Read(Ok(acc + page), n + 1)
      else ListFrom(r, n + 1, from + LIST_PAGE_SIZE, acc + page)
  }

  /** One pass: the generation, both stores, and the generation again. */
  function ReadPass(r: Reader, n: nat, digest: (nat, PassData) -> string): Read<Pass> {
    if r.fault(n) then Read(Err(GenerationUnavailable), n + 1)
    else
      var found := RegistriesFrom(r, n + 1, 0, []);
      if found.result.Err? then Read(Err(found.result.error), found.next)
      else
        var counts := ReadRegistries(r, found.next, {}, found.result.value, NO_COUNTS);
        if counts.result.Err? then Read(Err(counts.result.error), counts.next)
        else
          var keys := ListFrom(r, counts.next, 0, []);
          if keys.result.Err? then Read(Err(keys.result.error), keys.next)
          else if r.fault(keys.next) then Read(Err(GenerationUnavailable), keys.next + 1)
          else
            Read(Ok(PassOf(r, n, found.result.value, counts.result.value, counts.next,
                           keys.result.value, keys.next, digest)), keys.next + 1)
  }

  /** The record of a pass that read its generations at `first` and `last` and listed from `list` on.
      The count of malformed objects comes with the listing. */
  function PassOf(r: Reader, first: nat, registries: seq<Registry>, counts: Counts, list: nat,
                  keys: seq<string>, last: nat, digest: (nat, PassData) -> string): Pass
  {
    var data := PassData(registries, counts, RetentionOf(Seen(r, list).(keys := keys), registries));
    var after := Seen(r, last).generation;
    Pass(data, Seen(r, first).generation, after, digest(after, data))
  }

  /** Whether two consecutive passes agree. */
  predicate Agree(previous: Pass, current: Pass) {
    && current.generationBefore == current.generationAfter
    && previous.generationBefore == previous.generationAfter
    && previous.generationAfter == current.generationAfter
    && previous.stabilityDigest == current.stabilityDigest
  }

  /** A stable pass and the number of passes it took. */
  datatype Stable = Stable(pass: Pass, passes: nat)

  /** The passes still to make, as a function. */
  function StableFrom(r: Reader, n: nat, k: nat, previous: Option<Pass>, digest: (nat, PassData) -> string)
    : Result<Stable, ReadError>
    decreases MAX_PASSES - k, n
  {
    if k >= MAX_PASSES then Err(NeverStable)
    else
      var read := ReadPass(r, n, digest);
      if read.result.Err? then Err(read.result.error)
      else if previous.Some? && Agree(previous.value, read.result.value) then Ok(Stable(read.result.value, k + 1))
      else StableFrom(r, read.next, k + 1, Some(read.result.value), digest)
  }

  /** `collectStableHostedAppSnapshotReconciliation`, its first read being read `start`. */
  method CollectStable(r: Reader, start: nat, digest: (nat, PassData) -> string)
    returns (result: Result<Stable, ReadError>)
    ensures result == StableFrom(r, start, 0, None, digest)
  {
    var previous: Option<Pass> := None;
    var n := start;
    for k := 0 to MAX_PASSES
      invariant StableFrom(r, start, 0, None, digest) == StableFrom(r, n, k, previous, digest)
    {
      var read := CollectPass(r, n, digest);
      if read.result.Err? {
        return Err(read.result.error);
      }
      var current := read.result.value;
      if previous.Some? && Agree(previous.value, current) {
        return Ok(Stable(current, k + 1));
      }
      previous, n := Some(current), read.next;
    }
    return Err(NeverStable);
  }

  /** `collectHostedAppSnapshotReconciliationPass`. */
  method CollectPass(r: Reader, n: nat, digest: (nat, PassData) -> string) returns (read: Read<Pass>)
    ensures read == ReadPass(r, n, digest)
  {
    if r.fault(n) {
      return Read(Err(GenerationUnavailable), n + 1);
    }
    var found := ReadTenantRegistries(r, n + 1);
    if found.result.Err? {
      return Read(Err(found.result.error), found.next);
    }
    var counts := ReconcileRegistries(r, found.next, found.result.value);
    if counts.result.Err? {
      return Read(Err(counts.result.error), counts.next);
    }
    var keys := ListObjects(r, counts.next);
    if keys.result.Err? {
      return Read(Err(keys.result.error), keys.next);
    }
    if r.fault(keys.next) {
      return Read(Err(GenerationUnavailable), keys.next + 1);
    }
    return Read(Ok(PassOf(r, n, found.result.value, counts.result.value, counts.next,
                          keys.result.value, keys.next, digest)), keys.next + 1);
  }

  /** The listing loop of `inventoryHostedAppSnapshotObjects`. */
  method ListObjects(r: Reader, n: nat) returns (read: Read<seq<string>>)
    ensures read == ListFrom(r, n, 0, [])
  {
    var keys: seq<string> := [];
    var from, next := 0, n;
    while true
      invariant ListFrom(r, n, 0, []) == ListFrom(r, next, from, keys)
      invariant from <= MAX_LIST_ENTRIES
      decreases MAX_LIST_ENTRIES - from
    {
      if r.fault(next) {
        return Read(Err(InventoryUnavailable), next + 1);
      }
      var page := Page(Seen(r, next).keys, from, LIST_PAGE_SIZE);
      if from + |page| > MAX_LIST_ENTRIES {
        return Read(Err(InventoryUnavailable), next + 1);
      }
      keys, next := keys + page, next + 1;
      if |page| < LIST_PAGE_SIZE {
        return Read(Ok(keys), next);
      }
      from := from + LIST_PAGE_SIZE;
    }
  }
}
