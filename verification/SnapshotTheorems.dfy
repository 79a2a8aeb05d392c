/** The double collect under the generation fence returns an atomic snapshot. */
module SnapshotTheorems {
  import opened Wrappers
  import opened SnapshotStore
  import opened SnapshotReconciliation

  // ----- hits

  /** Whether a failed read changed what the installation read from read `n` on is counted as: a fault
      at its `exists` read, or at the `assertExact` read of an archive whose content matches. */
  function Hit(r: Reader, n: nat, i: Installation): nat {
    if !i.detached || i.descriptor.None? then 0
    else if r.fault(n) then 1
    else if i.descriptor.value.folder !in Seen(r, n).folders then 0
    else if r.fault(n + 1) && Intact(Seen(r, n + 1), i.descriptor.value) then 1
    else 0
  }

  function HitsIn(r: Reader, n: nat, installations: seq<Installation>): nat
    decreases |installations|
  {
    if installations == [] then 0
    else Hit(r, n, installations[0]) + HitsIn(r, ReadInstallation(r, n, installations[0]).next, installations[1..])
  }

  function RegistryHits(r: Reader, n: nat, registries: seq<Registry>): nat
    decreases |registries|
  {
    if registries == [] then 0
    else
      HitsIn(r, n, registries[0].installations)
      + RegistryHits(r, ReadInstallations(r, n, registries[0].installations, NO_COUNTS).next, registries[1..])
  }

  /** How many installations of the pass that starts at read `n` were hit. */
  function PassHits(r: Reader, n: nat): nat {
    var found := RegistriesFrom(r, n + 1, 0, []);
    if found.result.Ok? then RegistryHits(r, found.next, found.result.value) else 0
  }

  /** What a fault leaves behind in the counts. */
  function Bad(c: Counts): nat { c.corrupt + c.unavailable }

  lemma InstallationRead(r: Reader, n: nat, i: Installation, w: World)
    requires Sees(r, n, ReadInstallation(r, n, i).next, w)
    ensures JudgedOn(r, n, NO_COUNTS, ReadInstallation(r, n, i), Judge(w, i), Hit(r, n, i))
  {
    hide Faults, Sees, JudgedOn;
    FirstFaults(r, n);
    SeesFirst(r, n, ReadInstallation(r, n, i).next, w);
    var read, judged, hits := ReadInstallation(r, n, i), Judge(w, i), Hit(r, n, i);
    assert n <= read.next && judged.unavailable == 0;
    assert hits == 0 ==> read.counts == judged;
    assert hits <= read.counts.unavailable + judged.verified - read.counts.verified;
    assert read.counts.verified <= judged.verified;
    assert hits <= Faults(r, n, read.next) && hits <= Bad(read.counts);
    JudgedFromNothing(r, n, read, judged, hits);
  }

  lemma JudgedFromNothing(r: Reader, n: nat, read: Tally, judged: Counts, hits: nat)
    requires n <= read.next && judged.unavailable == 0
    requires hits == 0 ==> read.counts == judged
    requires hits <= read.counts.unavailable + judged.verified - read.counts.verified
    requires read.counts.verified <= judged.verified
    requires hits <= Faults(r, n, read.next) && hits <= Bad(read.counts)
    ensures JudgedOn(r, n, NO_COUNTS, read, judged, hits)
  {}

  lemma SeesFirst(r: Reader, a: nat, b: nat, w: World)
    requires Sees(r, a, b, w)
    ensures a < b ==> Seen(r, a) == w
    ensures a + 1 < b ==> Seen(r, a + 1) == w
  {}

  lemma FirstFaults(r: Reader, n: nat)
    ensures Faults(r, n, n) == 0
    ensures Faults(r, n, n + 1) == if r.fault(n) then 1 else 0
    ensures Faults(r, n, n + 2) == (if r.fault(n) then 1 else 0) + (if r.fault(n + 1) then 1 else 0)
  {
    assert Faults(r, n, n + 2) == (if r.fault(n) then 1 else 0) + Faults(r, n + 1, n + 2);
  }

  lemma InstallationAdvances(r: Reader, n: nat, i: Installation)
    ensures n <= ReadInstallation(r, n, i).next
  {}

  lemma {:induction false} InstallationsAdvance(r: Reader, n: nat, installations: seq<Installation>, acc: Counts)
    ensures n <= ReadInstallations(r, n, installations, acc).next
    decreases |installations|
  {
    if installations == [] {
    } else {
      var first := ReadInstallation(r, n, installations[0]);
      InstallationsAdvance(r, first.next, installations[1..], Add(acc, first.counts));
    }
  }

  lemma {:induction false} InstallationsRead(
    r: Reader, n: nat, installations: seq<Installation>, acc: Counts, w: World)
    requires Sees(r, n, ReadInstallations(r, n, installations, acc).next, w)
    ensures JudgedOn(r, n, acc, ReadInstallations(r, n, installations, acc), JudgeAll(w, installations),
                     HitsIn(r, n, installations))
    decreases |installations|
  {
    hide JudgedOn, Sees, Faults, ReadInstallation, Judge, Hit, Add;
    if installations == [] {
      JudgedNothing(r, n, acc);
    } else {
      var first := ReadInstallation(r, n, installations[0]);
      var last := ReadInstallations(r, n, installations, acc).next;
      InstallationAdvances(r, n, installations[0]);
      InstallationsAdvance(r, first.next, installations[1..], Add(acc, first.counts));
      SeesPart(r, n, last, n, first.next, w);
      SeesPart(r, n, last, first.next, last, w);
      InstallationRead(r, n, installations[0], w);
      InstallationsRead(r, first.next, installations[1..], Add(acc, first.counts), w);
      JudgedOnJoin(r, n, acc, first, Judge(w, installations[0]), Hit(r, n, installations[0]),
                   ReadInstallations(r, n, installations, acc), JudgeAll(w, installations[1..]),
                   HitsIn(r, first.next, installations[1..]));
    }
  }

  /** Counts read from read `n` on are `judged` added to `acc` when nothing was hit. Each hit takes one
      from the verified or adds one to the unavailable, and is among the faults and the bad. */
  ghost predicate JudgedOn(r: Reader, n: nat, acc: Counts, read: Tally, judged: Counts, hits: nat) {
    && n <= read.next
    && (hits == 0 ==> read.counts == Add(acc, judged))
    && judged.unavailable == 0
    && acc.unavailable <= read.counts.unavailable
    && read.counts.verified <= acc.verified + judged.verified
    && hits <= read.counts.unavailable - acc.unavailable + acc.verified + judged.verified - read.counts.verified
    && hits <= Faults(r, n, read.next)
    && Bad(acc) + hits <= Bad(read.counts)
  }

  ghost predicate NewWorkspaces(seen: set<string>, registries: seq<Registry>) {
    DistinctWorkspaces(registries) && forall g :: g in registries ==> g.workspaceId !in seen
  }

  lemma {:induction false} RegistriesReadAdvance(
    r: Reader, n: nat, seen: set<string>, registries: seq<Registry>, acc: Counts)
    ensures n <= ReadRegistries(r, n, seen, registries, acc).next
    decreases |registries|
  {
    if registries != [] && registries[0].workspaceId !in seen {
      var first := ReadInstallations(r, n, registries[0].installations, NO_COUNTS);
      InstallationsAdvance(r, n, registries[0].installations, NO_COUNTS);
      RegistriesReadAdvance(r, first.next, seen + {registries[0].workspaceId}, registries[1..], Add(acc, first.counts));
    }
  }

  lemma {:induction false} RegistriesReadIff(
    r: Reader, n: nat, seen: set<string>, registries: seq<Registry>, acc: Counts)
    ensures ReadRegistries(r, n, seen, registries, acc).result.Ok? <==> NewWorkspaces(seen, registries)
    decreases |registries|
  {
    if registries == [] {
    } else {
      WorkspacesSplit(seen, registries);
      if registries[0].workspaceId !in seen {
        var first := ReadInstallations(r, n, registries[0].installations, NO_COUNTS);
        RegistriesReadIff(r, first.next, seen + {registries[0].workspaceId}, registries[1..], Add(acc, first.counts));
      }
    }
  }

  lemma {:induction false} RegistriesRead(
    r: Reader, n: nat, seen: set<string>, registries: seq<Registry>, acc: Counts, w: World)
    requires ReadRegistries(r, n, seen, registries, acc).result.Ok?
    requires Sees(r, n, ReadRegistries(r, n, seen, registries, acc).next, w)
    ensures var read := ReadRegistries(r, n, seen, registries, acc);
      JudgedOn(r, n, acc, Tally(read.result.value, read.next), JudgeRegistries(w, registries),
               RegistryHits(r, n, registries))
    decreases |registries|
  {
    hide JudgedOn, Sees, Faults, ReadInstallations, JudgeAll, HitsIn, Add;
    if registries == [] {
      JudgedNothing(r, n, acc);
    } else {
      var g, rest := registries[0], registries[1..];
      var first := ReadInstallations(r, n, g.installations, NO_COUNTS);
      var seen' := seen + {g.workspaceId};
      var acc' := Add(acc, first.counts);
      var read := ReadRegistries(r, first.next, seen', rest, acc');
      RegistriesReadAdvance(r, first.next, seen', rest, acc');
      InstallationsAdvance(r, n, g.installations, NO_COUNTS);
      SeesPart(r, n, read.next, n, first.next, w);
      SeesPart(r, n, read.next, first.next, read.next, w);
      InstallationsRead(r, n, g.installations, NO_COUNTS, w);
      RegistriesRead(r, first.next, seen', rest, acc', w);
      JudgedOnJoin(r, n, acc, first, JudgeAll(w, g.installations), HitsIn(r, n, g.installations),
                   Tally(read.result.value, read.next), JudgeRegistries(w, rest), RegistryHits(r, first.next, rest));
    }
  }

  /** Judged parts join. */
  lemma JudgedOnJoin(r: Reader, n: nat, acc: Counts, first: Tally, judged: Counts, hits: nat,
                     second: Tally, rest: Counts, more: nat)
    requires JudgedOn(r, n, NO_COUNTS, first, judged, hits)
    requires JudgedOn(r, first.next, Add(acc, first.counts), second, rest, more)
    ensures JudgedOn(r, n, acc, second, Add(judged, rest), hits + more)
  {
    hide Faults, Add;
    FaultsJoin(r, n, first.next, second.next);
    AddIsFieldwise(NO_COUNTS, judged);
    AddIsFieldwise(judged, rest);
    AddIsFieldwise(acc, first.counts);
    AddIsAssociative(acc, judged, rest);
  }

  lemma AddIsFieldwise(a: Counts, b: Counts)
    ensures Add(a, b).verified == a.verified + b.verified && Add(a, b).unavailable == a.unavailable + b.unavailable
    ensures Bad(Add(a, b)) == Bad(a) + Bad(b)
    ensures Add(NO_COUNTS, b) == b
  {}

  lemma AddIsAssociative(a: Counts, b: Counts, c: Counts)
    ensures Add(Add(a, b), c) == Add(a, Add(b, c))
  {}

  lemma JudgedIff(r: Reader, n: nat, read: Tally, judged: Counts, hits: nat)
    requires JudgedOn(r, n, NO_COUNTS, read, judged, hits)
    ensures read.counts == judged <==> hits == 0
    ensures hits <= Faults(r, n, read.next) && hits <= Bad(read.counts)
  {
    hide Faults, Add, Bad, JudgedOn;
    NoCountsAdd(judged);
    JudgedParts(r, n, read, judged, hits);
  }

  lemma NoCountsAdd(b: Counts)
    ensures Add(NO_COUNTS, b) == b && NO_COUNTS.verified == NO_COUNTS.unavailable == Bad(NO_COUNTS) == 0
  {}

  lemma JudgedParts(r: Reader, n: nat, read: Tally, judged: Counts, hits: nat)
    requires JudgedOn(r, n, NO_COUNTS, read, judged, hits)
    ensures hits == 0 ==> read.counts == Add(NO_COUNTS, judged)
    ensures judged.unavailable == 0
    ensures hits <=
      read.counts.unavailable - NO_COUNTS.unavailable + NO_COUNTS.verified + judged.verified - read.counts.verified
    ensures hits <= Faults(r, n, read.next) && Bad(NO_COUNTS) + hits <= Bad(read.counts)
  {
    hide Faults, Add, Bad;
  }

  lemma JudgedNothing(r: Reader, n: nat, acc: Counts)
    ensures JudgedOn(r, n, acc, Tally(acc, n), NO_COUNTS, 0)
  {}

  lemma WorkspacesSplit(seen: set<string>, registries: seq<Registry>)
    requires registries != []
    ensures NewWorkspaces(seen, registries) <==>
      registries[0].workspaceId !in seen && NewWorkspaces(seen + {registries[0].workspaceId}, registries[1..])
  {
    var g, rest := registries[0], registries[1..];
    assert registries == [g] + rest;
    if NewWorkspaces(seen + {g.workspaceId}, rest) {
      forall i, j | 0 <= i < j < |registries| ensures registries[i].workspaceId != registries[j].workspaceId {
        assert registries[j] == rest[j - 1] && rest[j - 1] in rest;
        if i > 0 { assert registries[i] == rest[i - 1]; }
      }
    }
    if NewWorkspaces(seen, registries) {
      forall i, j | 0 <= i < j < |rest| ensures rest[i].workspaceId != rest[j].workspaceId {
        assert registries[i + 1] == rest[i] && registries[j + 1] == rest[j];
      }
      forall h | h in rest ensures h.workspaceId !in seen + {g.workspaceId} {
        var i :| 0 <= i < |rest| && rest[i] == h;
        assert registries[i + 1] == h && h in registries;
      }
    }
  }

  lemma {:induction false} ListAdvances(r: Reader, n: nat, from: nat, acc: seq<string>)
    ensures n < ListFrom(r, n, from, acc).next
    decreases MAX_LIST_ENTRIES + LIST_PAGE_SIZE - from
  {
    var page := Page(Seen(r, n).keys, from, LIST_PAGE_SIZE);
    if !r.fault(n) && from + |page| <= MAX_LIST_ENTRIES && |page| >= LIST_PAGE_SIZE {
      ListAdvances(r, n + 1, from + LIST_PAGE_SIZE, acc + page);
    }
  }

  lemma {:induction false} ListRead(r: Reader, n: nat, from: nat, acc: seq<string>, w: World)
    requires Sees(r, n, ListFrom(r, n, from, acc).next, w)
    requires from <= |w.keys| && acc == w.keys[..from]
    ensures var read := ListFrom(r, n, from, acc);
      && n < read.next
      && (read.result.Ok? ==> read.result.value == w.keys && FaultFree(r, n, read.next))
    decreases MAX_LIST_ENTRIES + LIST_PAGE_SIZE - from
  {
    ListAdvances(r, n, from, acc);
    assert Seen(r, n) == w;
    var page := Page(w.keys, from, LIST_PAGE_SIZE);
    assert w.keys[..from] + page == w.keys[..from + |page|];
    if !r.fault(n) && from + |page| <= MAX_LIST_ENTRIES {
      if |page| >= LIST_PAGE_SIZE {
        ListAdvances(r, n + 1, from + LIST_PAGE_SIZE, acc + page);
        ListRead(r, n + 1, from + LIST_PAGE_SIZE, acc + page, w);
      } else {
        assert from + |page| == |w.keys| && w.keys[..|w.keys|] == w.keys;
      }
    }
  }

  // ----- one pass on one state

  lemma PassAdvances(r: Reader, n: nat, digest: (nat, PassData) -> string)
    ensures n < ReadPass(r, n, digest).next
  {
    if !r.fault(n) {
      var found := RegistriesFrom(r, n + 1, 0, []);
      RegistriesAdvance(r, n + 1, 0, []);
      if found.result.Ok? {
        RegistriesReadAdvance(r, found.next, {}, found.result.value, NO_COUNTS);
        ListAdvances(r, ReadRegistries(r, found.next, {}, found.result.value, NO_COUNTS).next, 0, []);
      }
    }
  }

  /** A completed pass taken apart: what its parts read, and the reads they ended before. */
  datatype Parts = Parts(
    registries: seq<Registry>, counts: Counts, keys: seq<string>, list: nat, last: nat, judge: nat)

  lemma PartsOf(r: Reader, n: nat, digest: (nat, PassData) -> string) returns (p: Parts)
    requires ReadPass(r, n, digest).result.Ok?
    ensures RegistriesFrom(r, n + 1, 0, []) == Read(Ok(p.registries), p.judge)
    ensures ReadRegistries(r, p.judge, {}, p.registries, NO_COUNTS) == Read(Ok(p.counts), p.list)
    ensures ListFrom(r, p.list, 0, []) == Read(Ok(p.keys), p.last)
    ensures !r.fault(n) && !r.fault(p.last)
    ensures n < p.judge <= p.list < p.last
    ensures ReadPass(r, n, digest)
         == Read(Ok(PassOf(r, n, p.registries, p.counts, p.list, p.keys, p.last, digest)), p.last + 1)
  {
    var found := RegistriesFrom(r, n + 1, 0, []);
    RegistriesAdvance(r, n + 1, 0, []);
    RegistriesReadAdvance(r, found.next, {}, found.result.value, NO_COUNTS);
    var counts := ReadRegistries(r, found.next, {}, found.result.value, NO_COUNTS);
    ListAdvances(r, counts.next, 0, []);
    var keys := ListFrom(r, counts.next, 0, []);
    p := Parts(found.result.value, counts.result.value, keys.result.value, counts.next, keys.next, found.next);
  }

  lemma PartsAreSnapshot(r: Reader, n: nat, p: Parts, w: World)
    requires n < p.judge <= p.list < p.last && Sees(r, n, p.last + 1, w)
    requires RegistriesFrom(r, n + 1, 0, []) == Read(Ok(p.registries), p.judge)
    requires ReadRegistries(r, p.judge, {}, p.registries, NO_COUNTS) == Read(Ok(p.counts), p.list)
    requires ListFrom(r, p.list, 0, []) == Read(Ok(p.keys), p.last)
    requires !r.fault(n) && !r.fault(p.last)
    ensures p.keys == w.keys
    ensures Snapshot(w) == Ok(PassData(p.registries, p.counts, RetentionOf(w, p.registries))) <==> PassHits(r, n) == 0
    ensures FaultFree(r, n, p.last + 1) || Healthy(p.counts) ==> PassHits(r, n) == 0
  {
    hide RegistriesFrom, ReadRegistries, ListFrom, RetentionOf, JudgeRegistries, Faults, Sees, TableRegistries,
         RegistryHits;
    SeesPart(r, n, p.last + 1, n + 1, p.judge, w);
    SeesPart(r, n, p.last + 1, p.judge, p.list, w);
    SeesPart(r, n, p.last + 1, p.list, p.last, w);
    EmptyPrefixes(w);
    PagingMetNoFault(r, n + 1, 0, []);
    PagingReadsTable(r, n + 1, 0, [], w);
    ListRead(r, p.list, 0, [], w);
    CountsAreJudged(r, n, p.judge, p.list, p.last + 1, p.registries, p.counts, w);
  }

  lemma SeesPart(r: Reader, a: nat, b: nat, m: nat, n: nat, w: World)
    requires Sees(r, a, b, w) && a <= m <= n <= b
    ensures Sees(r, m, n, w)
  {}

  lemma EmptyPrefixes(w: World)
    ensures RowRegistries(w.rows[..0]) == Ok([]) && w.keys[..0] == []
  {}

  lemma CountsAreJudged(r: Reader, first: nat, m: nat, n: nat, last: nat,
                        registries: seq<Registry>, counts: Counts, w: World)
    requires first <= m <= n <= last && Sees(r, m, n, w)
    requires ReadRegistries(r, m, {}, registries, NO_COUNTS) == Read(Ok(counts), n)
    ensures DistinctWorkspaces(registries)
    ensures counts == JudgeRegistries(w, registries) <==> RegistryHits(r, m, registries) == 0
    ensures RegistryHits(r, m, registries) <= Faults(r, first, last)
    ensures RegistryHits(r, m, registries) <= Bad(counts)
  {
    hide Faults, Sees, JudgedOn, ReadRegistries, RegistryHits, JudgeRegistries;
    RegistriesReadIff(r, m, {}, registries, NO_COUNTS);
    RegistriesRead(r, m, {}, registries, NO_COUNTS, w);
    JudgedIff(r, m, Tally(counts, n), JudgeRegistries(w, registries), RegistryHits(r, m, registries));
    FaultsJoin(r, first, m, last);
    FaultsJoin(r, m, n, last);
  }

  /** A pass whose reads all saw one state is the snapshot of that state exactly when none of its
      installations was hit. Without faults, or when it is healthy, none was. */
  lemma PassIsSnapshot(r: Reader, n: nat, next: nat, digest: (nat, PassData) -> string, pass: Pass, w: World)
    requires ReadAs(r, n, next, digest, pass) && Sees(r, n, next, w)
    ensures pass.generationBefore == pass.generationAfter == w.generation
    ensures pass.stabilityDigest == digest(w.generation, pass.data)
    ensures Snapshot(w) == Ok(pass.data) <==> PassHits(r, n) == 0
    ensures FaultFree(r, n, next) || Healthy(pass.data.counts) ==> PassHits(r, n) == 0
  {
    hide ReadPass, RetentionOf, Snapshot, PassHits, Healthy, Faults, RegistriesFrom, ReadRegistries, ListFrom;
    var p := PartsOf(r, n, digest);
    assert Seen(r, n) == w && Seen(r, p.list) == w && Seen(r, p.last) == w;
    PartsAreSnapshot(r, n, p, w);
    assert w.(keys := w.keys) == w;
  }

  lemma StillSees(r: Reader, a: nat, b: nat, m: nat, n: nat)
    requires Still(r, a, b) && a <= m <= n <= b
    ensures Sees(r, m, n, Seen(r, a))
  {}

  // ----- the stability loop

  /** `pass` was read from read `a` on and ended before read `b`. */
  ghost predicate ReadAs(r: Reader, a: nat, b: nat, digest: (nat, PassData) -> string, pass: Pass) {
    ReadPass(r, a, digest) == Read(Ok(pass), b)
  }

  /** The returned pass is the second of two whose reads all saw one committed state. Its data is the
      snapshot of that state exactly when none of its installations was hit by a failed read, as when
      no read failed or the pass is healthy. */
  ghost predicate AtomicResult(r: Reader, digest: (nat, PassData) -> string, a: nat, b: nat, c: nat, pass: Pass) {
    && a < b < c
    && Still(r, a, c)
    && ReadAs(r, b, c, digest, pass)
    && pass.generationAfter == Seen(r, a).generation
    && (Snapshot(Seen(r, a)) == Ok(pass.data) <==> PassHits(r, b) == 0)
    && (FaultFree(r, b, c) || Healthy(pass.data.counts) ==> PassHits(r, b) == 0)
  }

  lemma AgreeingPassesAreStill(r: Reader, a: nat, b: nat, c: nat, digest: (nat, PassData) -> string,
                               previous: Pass, current: Pass)
    requires Fenced(r) && ReadAs(r, a, b, digest, previous) && ReadAs(r, b, c, digest, current)
    requires Agree(previous, current)
    ensures AtomicResult(r, digest, a, b, c, current)
  {
    PassGenerations(r, a, b, digest, previous);
    PassGenerations(r, b, c, digest, current);
    SameGenerationIsStill(r, a, c);
    StillSees(r, a, c, b, c);
    PassIsSnapshot(r, b, c, digest, current, Seen(r, a));
  }

  lemma StillPassesAgree(r: Reader, a: nat, b: nat, c: nat, digest: (nat, PassData) -> string,
                         previous: Pass, current: Pass)
    requires ReadAs(r, a, b, digest, previous) && ReadAs(r, b, c, digest, current)
    requires Still(r, a, c) && FaultFree(r, a, c)
    ensures Agree(previous, current)
  {
    PassGenerations(r, a, b, digest, previous);
    PassGenerations(r, b, c, digest, current);
    FaultsJoin(r, a, b, c);
    StillSees(r, a, c, a, b);
    StillSees(r, a, c, b, c);
    PassIsSnapshot(r, a, b, digest, previous, Seen(r, a));
    PassIsSnapshot(r, b, c, digest, current, Seen(r, a));
  }

  /** The first and last reads of a pass are its generations. */
  lemma PassGenerations(r: Reader, n: nat, next: nat, digest: (nat, PassData) -> string, pass: Pass)
    requires ReadAs(r, n, next, digest, pass)
    ensures n < next
    ensures pass.generationBefore == Seen(r, n).generation
    ensures pass.generationAfter == Seen(r, next - 1).generation
  {
    var p := PartsOf(r, n, digest);
  }

  lemma {:induction false} StableFromIsAtomic(
    r: Reader, digest: (nat, PassData) -> string, a: nat, n: nat, k: nat, previous: Option<Pass>)
    returns (a': nat, b': nat, c': nat)
    requires Fenced(r) && (previous.Some? <==> k > 0)
    requires previous.Some? ==> ReadAs(r, a, n, digest, previous.value)
    requires StableFrom(r, n, k, previous, digest).Ok?
    ensures 2 <= StableFrom(r, n, k, previous, digest).value.passes <= MAX_PASSES
    ensures (if k > 0 then a else n) <= a'
    ensures AtomicResult(r, digest, a', b', c', StableFrom(r, n, k, previous, digest).value.pass)
    decreases MAX_PASSES - k
  {
    hide ReadPass, AtomicResult;
    var read := ReadPass(r, n, digest);
    var pass := read.result.value;
    assert ReadAs(r, n, read.next, digest, pass);
    PassAdvances(r, n, digest);
    if previous.Some? {
      PassAdvances(r, a, digest);
    }
    if previous.Some? && Agree(previous.value, pass) {
      AgreeingPassesAreStill(r, a, n, read.next, digest, previous.value, pass);
      a', b', c' := a, n, read.next;
    } else {
      a', b', c' := StableFromIsAtomic(r, digest, n, read.next, k + 1, Some(pass));
    }
  }

  /** Whatever pass the stability loop returns, it took 2 to 4 passes, and one committed state was
      current from the first read of the pass before it to its own last read, under every interleaving
      with the writers. The pass equals the reconciliation of that state exactly when no failed read hit
      one of its installations. */
  lemma ReturnedPassIsAtomic(r: Reader, start: nat, digest: (nat, PassData) -> string)
    requires Fenced(r) && StableFrom(r, start, 0, None, digest).Ok?
    ensures var result := StableFrom(r, start, 0, None, digest).value;
      && 2 <= result.passes <= MAX_PASSES
      && exists a, b, c :: start <= a && AtomicResult(r, digest, a, b, c, result.pass)
  {
    var a, b, c := StableFromIsAtomic(r, digest, 0, start, 0, None);
  }

  // ----- when the loop succeeds

  /** The first read of the pass numbered `k`, counting from 0. */
  ghost function PassStart(r: Reader, start: nat, k: nat, digest: (nat, PassData) -> string): nat {
    if k == 0 then start else ReadPass(r, PassStart(r, start, k - 1, digest), digest).next
  }

  /** The first `k` passes complete. */
  ghost predicate Completes(r: Reader, start: nat, k: nat, digest: (nat, PassData) -> string) {
    forall j :: 0 <= j < k ==> ReadPass(r, PassStart(r, start, j, digest), digest).result.Ok?
  }

  ghost function PassDigest(r: Reader, start: nat, k: nat, digest: (nat, PassData) -> string): Option<string> {
    var read := ReadPass(r, PassStart(r, start, k, digest), digest);
    if read.result.Ok? then Some(read.result.value.stabilityDigest) else None
  }

  /** There are at least two passes, nothing was committed from the first read of pass k - 2 to the last
      read of pass k - 1, and what the two read has one digest. */
  ghost predicate QuietUntil(r: Reader, start: nat, k: nat, digest: (nat, PassData) -> string) {
    && 2 <= k
    && Still(r, PassStart(r, start, k - 2, digest), PassStart(r, start, k, digest))
    && PassDigest(r, start, k - 2, digest) == PassDigest(r, start, k - 1, digest)
  }

  ghost predicate StableAt(r: Reader, start: nat, k: nat, digest: (nat, PassData) -> string) {
    Completes(r, start, k, digest) && QuietUntil(r, start, k, digest)
  }

  lemma {:induction false} StartsAdvance(r: Reader, start: nat, k: nat, digest: (nat, PassData) -> string)
    ensures start <= PassStart(r, start, k, digest)
  {
    if k == 0 {
    } else {
      StartsAdvance(r, start, k - 1, digest);
      PassAdvances(r, PassStart(r, start, k - 1, digest), digest);
    }
  }

  lemma {:induction false} StableFromIff(
    r: Reader, start: nat, digest: (nat, PassData) -> string, k: nat, previous: Option<Pass>)
    requires Fenced(r) && Completes(r, start, k, digest) && k <= MAX_PASSES
    requires previous.Some? <==> k > 0
    requires k > 0 ==>
      ReadAs(r, PassStart(r, start, k - 1, digest), PassStart(r, start, k, digest), digest, previous.value)
    ensures var result := StableFrom(r, PassStart(r, start, k, digest), k, previous, digest);
      && (result.Ok? <==> exists p :: k < p <= MAX_PASSES && StableAt(r, start, p, digest))
      && (result.Ok? ==>
            && k < result.value.passes <= MAX_PASSES
            && StableAt(r, start, result.value.passes, digest)
            && forall p :: k < p < result.value.passes ==> !StableAt(r, start, p, digest))
    decreases MAX_PASSES - k
  {
    hide ReadPass, QuietUntil;
    if k == MAX_PASSES {
    } else {
      var n := PassStart(r, start, k, digest);
      var read := ReadPass(r, n, digest);
      if read.result.Ok? {
        var next := PassStart(r, start, k + 1, digest);
        var pass := read.result.value;
        assert ReadAs(r, n, next, digest, pass);
        assert Completes(r, start, k + 1, digest);
        StableFromIff(r, start, digest, k + 1, Some(pass));
        if k > 0 {
          AgreeIff(r, start, digest, k, previous.value, pass);
        } else {
          FirstPassIsNotEnough(r, start, digest);
        }
        assert StableAt(r, start, k + 1, digest) <==> previous.Some? && Agree(previous.value, pass);
      } else {
        assert forall p :: k < p <= MAX_PASSES ==> !Completes(r, start, p, digest);
      }
    }
  }

  lemma FirstPassIsNotEnough(r: Reader, start: nat, digest: (nat, PassData) -> string)
    ensures !QuietUntil(r, start, 1, digest)
  {}

  lemma AgreeIff(r: Reader, start: nat, digest: (nat, PassData) -> string, k: nat, previous: Pass, pass: Pass)
    requires Fenced(r) && 0 < k < MAX_PASSES
    requires var a, n := PassStart(r, start, k - 1, digest), PassStart(r, start, k, digest);
      ReadAs(r, a, n, digest, previous) && ReadAs(r, n, PassStart(r, start, k + 1, digest), digest, pass)
    ensures Agree(previous, pass) <==> QuietUntil(r, start, k + 1, digest)
  {
    hide ReadPass, PassStart;
    var a, n := PassStart(r, start, k - 1, digest), PassStart(r, start, k, digest);
    var next := PassStart(r, start, k + 1, digest);
    StartsAdvance(r, start, k - 1, digest);
    PassGenerations(r, a, n, digest, previous);
    PassGenerations(r, n, next, digest, pass);
    if Agree(previous, pass) {
      AgreeingPassesAreStill(r, a, n, next, digest, previous, pass);
    }
  }

  /** Two passes without faults over one state have one digest: without failed reads, quiet means that
      nothing was committed. */
  lemma FaultFreeIsQuiet(r: Reader, start: nat, k: nat, digest: (nat, PassData) -> string)
    requires 2 <= k && Completes(r, start, k, digest)
    requires FaultFree(r, PassStart(r, start, k - 2, digest), PassStart(r, start, k, digest))
    ensures StableAt(r, start, k, digest) <==>
      Still(r, PassStart(r, start, k - 2, digest), PassStart(r, start, k, digest))
  {
    hide ReadPass, FaultFree, Still;
    var a, b := PassStart(r, start, k - 2, digest), PassStart(r, start, k - 1, digest);
    var c := PassStart(r, start, k, digest);
    var previous, current := ReadPass(r, a, digest).result.value, ReadPass(r, b, digest).result.value;
    assert ReadAs(r, a, b, digest, previous) && ReadAs(r, b, c, digest, current);
    if Still(r, a, c) {
      StillPassesAgree(r, a, b, c, digest, previous, current);
    }
  }

  /** The loop succeeds exactly when, before any pass fails, two consecutive passes among its four saw no
      commit and read data of one digest, and it stops at the first such pair. */
  lemma LoopSucceedsIff(r: Reader, start: nat, digest: (nat, PassData) -> string)
    requires Fenced(r)
    ensures var result := StableFrom(r, start, 0, None, digest);
      && (result.Ok? <==> exists p :: 0 < p <= MAX_PASSES && StableAt(r, start, p, digest))
      && (result.Ok? ==>
            && StableAt(r, start, result.value.passes, digest)
            && forall p :: 0 < p < result.value.passes ==> !StableAt(r, start, p, digest))
  {
    hide ReadPass, StableAt;
    StableFromIff(r, start, digest, 0, None);
  }

  // ----- a returned pass that is not the snapshot

  /** One detached installation whose archive is intact. */
  function OneRegistry(workspaceId: string, d: Descriptor): Registry {
    Registry(workspaceId, [Installation(true, Some(d))])
  }

  function IntactWorld(workspaceId: string, d: Descriptor, generation: nat): World {
    World(generation, [Row(Some(workspaceId), Some(OneRegistry(workspaceId, d)))], [d.key], map[d.key := d.content],
          {d.folder}, 0)
  }

  /** A store that never changes, and two failed reads: the comparison of the archive in each of the
      first two passes from read `start` on. */
  function FaultyReader(workspaceId: string, d: Descriptor, start: nat): Reader {
    Reader((c: nat) => IntactWorld(workspaceId, d, c), _ => 0, n => n == start + 3 || n == start + 9)
  }

  ghost function FaultyData(workspaceId: string, d: Descriptor): PassData {
    var registries := [OneRegistry(workspaceId, d)];
    PassData(registries, Counts(1, 0, 0, 1, 0, 0), RetentionOf(IntactWorld(workspaceId, d, 0), registries))
  }

  lemma OneInstallation(r: Reader, n: nat, i: Installation)
    ensures var one := ReadInstallation(r, n, i);
      && ReadInstallations(r, n, [i], NO_COUNTS) == Tally(one.counts, one.next)
      && HitsIn(r, n, [i]) == Hit(r, n, i)
  {
    hide ReadInstallation, Hit;
    assert [i][1..] == [];
    assert Add(NO_COUNTS, ReadInstallation(r, n, i).counts) == ReadInstallation(r, n, i).counts;
  }

  lemma OneRegistryRead(r: Reader, n: nat, g: Registry)
    ensures var one := ReadInstallations(r, n, g.installations, NO_COUNTS);
      && ReadRegistries(r, n, {}, [g], NO_COUNTS) == Read(Ok(one.counts), one.next)
      && RegistryHits(r, n, [g]) == HitsIn(r, n, g.installations)
  {
    hide ReadInstallations, HitsIn;
    assert [g][1..] == [];
    var one := ReadInstallations(r, n, g.installations, NO_COUNTS);
    assert Add(NO_COUNTS, one.counts) == one.counts;
    assert {} + {g.workspaceId} == {g.workspaceId};
  }

  lemma OneJudged(w: World, g: Registry, i: Installation)
    requires g.installations == [i]
    ensures JudgeRegistries(w, [g]) == Judge(w, i)
  {
    hide Judge;
    assert [g][1..] == [] && [i][1..] == [];
    assert JudgeAll(w, []) == NO_COUNTS && JudgeRegistries(w, []) == NO_COUNTS;
    assert JudgeAll(w, [i]) == Add(Judge(w, i), NO_COUNTS);
    assert JudgeRegistries(w, [g]) == Add(JudgeAll(w, g.installations), NO_COUNTS);
  }

  /** The comparison counts the intact archive as corrupt. */
  lemma FaultyCounts(workspaceId: string, d: Descriptor, start: nat, n: nat)
    requires n == start + 2 || n == start + 8
    ensures var r, g := FaultyReader(workspaceId, d, start), OneRegistry(workspaceId, d);
      && ReadRegistries(r, n, {}, [g], NO_COUNTS) == Read(Ok(Counts(1, 0, 0, 1, 0, 0)), n + 2)
      && RegistryHits(r, n, [g]) == 1
  {
    hide ReadRegistries, ReadInstallations, RegistryHits, HitsIn;
    var r, g := FaultyReader(workspaceId, d, start), OneRegistry(workspaceId, d);
    OneRegistryRead(r, n, g);
    OneInstallation(r, n, g.installations[0]);
    assert ReadInstallation(r, n, g.installations[0]) == Tally(Counts(1, 0, 0, 1, 0, 0), n + 2);
  }

  lemma OneRow(row: Row, g: Registry)
    requires RowRegistry(row) == Ok(g)
    ensures RowRegistries([row]) == Ok([g])
  {
    assert [row][1..] == [] && RowRegistries([]) == Ok([]);
    assert [g] + [] == [g];
  }

  lemma FaultyTable(workspaceId: string, d: Descriptor, start: nat, n: nat, from: nat)
    requires (n == start + 1 || n == start + 7) && from == 0
    ensures RegistriesFrom(FaultyReader(workspaceId, d, start), n, from, [])
         == Read(Ok([OneRegistry(workspaceId, d)]), n + 1)
  {
    var w, g := IntactWorld(workspaceId, d, 0), OneRegistry(workspaceId, d);
    assert w.rows[1..] == [] && [] + [g] == [g];
    assert Page(w.rows, from, REGISTRY_PAGE_SIZE) == w.rows;
    OneRow(w.rows[0], g);
  }

  lemma FaultyList(workspaceId: string, d: Descriptor, start: nat, n: nat, from: nat)
    requires (n == start + 4 || n == start + 10) && from == 0
    ensures ListFrom(FaultyReader(workspaceId, d, start), n, from, []) == Read(Ok([d.key]), n + 1)
  {
    var w := IntactWorld(workspaceId, d, 0);
    assert Page(w.keys, from, LIST_PAGE_SIZE) == w.keys && [] + w.keys == w.keys;
  }

  lemma FaultyPass(workspaceId: string, d: Descriptor, start: nat, n: nat, digest: (nat, PassData) -> string)
    requires n == start || n == start + 6
    ensures var data := FaultyData(workspaceId, d);
      ReadPass(FaultyReader(workspaceId, d, start), n, digest) == Read(Ok(Pass(data, 0, 0, digest(0, data))), n + 6)
    ensures PassHits(FaultyReader(workspaceId, d, start), n) == 1
  {
    hide RegistriesFrom, ReadRegistries, ListFrom, RetentionOf, RegistryHits;
    FaultyTable(workspaceId, d, start, n + 1, 0);
    FaultyCounts(workspaceId, d, start, n + 2);
    FaultyList(workspaceId, d, start, n + 4, 0);
    var w := IntactWorld(workspaceId, d, 0);
    assert w.(keys := [d.key]) == w;
  }

  /** Why hits matter, for every archive: over a store that never changes, the loop returns after two
      passes a result that calls the intact archive corrupt, because its comparison failed once in each. */
  lemma FaultedPassIsNotSnapshot(workspaceId: string, d: Descriptor, start: nat, digest: (nat, PassData) -> string)
    ensures var r := FaultyReader(workspaceId, d, start);
      && Fenced(r)
      && StableFrom(r, start, 0, None, digest).Ok?
      && var result := StableFrom(r, start, 0, None, digest).value;
      && result.passes == 2
      && result.pass.data.counts == Counts(1, 0, 0, 1, 0, 0)
      && JudgeRegistries(Seen(r, start), result.pass.data.registries) == Counts(1, 1, 0, 0, 0, 0)
      && Snapshot(Seen(r, start)) != Ok(result.pass.data)
  {
    hide ReadPass, PassHits, Snapshot, FaultyData;
    var r, data := FaultyReader(workspaceId, d, start), FaultyData(workspaceId, d);
    FaultyPass(workspaceId, d, start, start, digest);
    FaultyPass(workspaceId, d, start, start + 6, digest);
    var pass := Pass(data, 0, 0, digest(0, data));
    TwoPassesStable(r, start, digest, pass);
    PassIsSnapshot(r, start + 6, start + 12, digest, pass, IntactWorld(workspaceId, d, 0));
    FaultyIsVerified(workspaceId, d);
  }

  lemma TwoPassesStable(r: Reader, start: nat, digest: (nat, PassData) -> string, pass: Pass)
    requires ReadPass(r, start, digest) == Read(Ok(pass), start + 6)
    requires ReadPass(r, start + 6, digest) == Read(Ok(pass), start + 12) && Agree(pass, pass)
    ensures StableFrom(r, start, 0, None, digest) == Ok(Stable(pass, 2))
  {
    hide ReadPass;
    assert StableFrom(r, start + 6, 1, Some(pass), digest) == Ok(Stable(pass, 2));
  }

  lemma FaultyIsVerified(workspaceId: string, d: Descriptor)
    ensures FaultyData(workspaceId, d).counts == Counts(1, 0, 0, 1, 0, 0)
    ensures JudgeRegistries(IntactWorld(workspaceId, d, 0), FaultyData(workspaceId, d).registries)
         == Counts(1, 1, 0, 0, 0, 0)
  {
    var w, g := IntactWorld(workspaceId, d, 0), OneRegistry(workspaceId, d);
    hide JudgeRegistries, RetentionOf;
    OneJudged(w, g, g.installations[0]);
  }
}
