/** Theorems about whole drains and series of drains. */
module DrainTheorems {
  import opened Wrappers
  import opened AuditProtocol
  import opened AuditDrain
  import opened DrainSafety

  // ----- accounting

  lemma {:induction false} PostedSizes(config: Config, crypto: Crypto, log: Log)
    requires SafeLog(config, crypto, log)
    ensures |log.posted| <= |EventsOf(log.posted)| <= MAX_PAGE_EVENTS * |log.posted|
    ensures log.posted != [] ==>
      LastSequence(StartSequence(config), EventsOf(log.posted)) == log.posted[|log.posted| - 1].range.lastSequence
    ensures log.posted != [] ==>
      LastHash(StartHash(config), EventsOf(log.posted)) == log.posted[|log.posted| - 1].range.lastEventHash
    decreases |log.posted|
  {
    if log.posted == [] {
    } else {
      var n := |log.posted| - 1;
      SafeLogPrefix(config, crypto, log, n);
      PostedSizes(config, crypto, log.(posted := log.posted[..n], acks := log.acks[..n]));
      assert BatchContinues(config, crypto, log, n);
      ExtendsSplit(StartSequence(config), StartHash(config), EventsOf(log.posted[..n]), log.posted[n].events);
    }
  }

  ghost function AcknowledgedCount(acks: seq<Acknowledgement>): nat {
    if acks == [] then 0 else AcknowledgedCount(acks[..|acks| - 1]) + acks[|acks| - 1].statement.eventCount
  }

  lemma {:induction false} AcknowledgedCounts(config: Config, crypto: Crypto, log: Log)
    requires SafeLog(config, crypto, log) && |log.acks| == |log.posted|
    ensures AcknowledgedCount(log.acks) == |EventsOf(log.posted)|
    decreases |log.posted|
  {
    if log.posted == [] {
    } else {
      var n := |log.posted| - 1;
      SafeLogPrefix(config, crypto, log, n);
      AcknowledgedCounts(config, crypto, log.(posted := log.posted[..n], acks := log.acks[..n]));
      assert BatchContinues(config, crypto, log, n);
      assert AckAnswers(config, crypto, log, n);
    }
  }

  /** A finished drain's counters: every batch carries between 1 and 500 events, the event count is
      what the receiver acknowledged, and both are bounded by the drained interval. */
  lemma DrainAccounting(config: Config, crypto: Crypto, env: Environment, receipt: DrainReceipt, log: Log)
    requires config.previous.Some? ==> ReceiptSchemaHolds(config.previous.value)
    requires Drain(config, crypto, env) == Finished(receipt, log)
    ensures receipt.batchCount <= receipt.eventCount <= MAX_PAGE_EVENTS * receipt.batchCount
    ensures receipt.fromSequence + receipt.eventCount <= receipt.throughSequence
    ensures receipt.eventCount == AcknowledgedCount(log.acks)
    ensures |log.pages| <= receipt.throughSequence - receipt.fromSequence + 1
  {
    EveryDrainIsSafe(config, crypto, env);
    PostedSizes(config, crypto, log);
    AcknowledgedCounts(config, crypto, log);
    ChainIncreases(StartSequence(config), StartHash(config), EventsOf(log.posted));
    var events := EventsOf(log.posted);
    if events != [] {
      assert events[|events| - 1] in events;
    }
  }

  // ----- release checkpoints

  /** Every release checkpoint of a finished drain is the retained head or exactly one drained event. */
  lemma ReleaseCheckpointsProved(config: Config, crypto: Crypto, env: Environment,
                                 receipt: DrainReceipt, log: Log, c: Checkpoint)
    requires config.previous.Some? ==> ReceiptSchemaHolds(config.previous.value)
    requires Drain(config, crypto, env) == Finished(receipt, log)
    requires c in config.checkpoints
    ensures receipt.checkpoints == Some(config.checkpoints)
    ensures receipt.fromSequence <= c.sequence <= receipt.throughSequence
    ensures StartOrOneEvent(c, StartHead(config), EventsOf(log.posted))
  {
    EveryDrainIsSafe(config, crypto, env);
    AnchoredOnce(c, StartHead(config), EventsOf(log.posted));
  }

  /** The checkpoint is the start and no event, or exactly one event with its sequence and hash. */
  ghost predicate StartOrOneEvent(c: Checkpoint, start: Head, events: seq<AuditEvent>) {
    || (c.sequence == start.sequence && c.hash == start.hash
        && forall e :: e in events ==> e.sequence != c.sequence)
    || (exists i :: 0 <= i < |events| && events[i].sequence == c.sequence && events[i].eventHash == c.hash
          && forall j :: 0 <= j < |events| && events[j].sequence == c.sequence ==> j == i)
  }

  /** On a chain an anchored checkpoint is the start or sits on exactly one event. */
  lemma AnchoredOnce(c: Checkpoint, start: Head, events: seq<AuditEvent>)
    requires Extends(start.sequence, start.hash, events) && Anchored(c, start, events)
    ensures StartOrOneEvent(c, start, events)
  {
    ChainIncreases(start.sequence, start.hash, events);
    if c.sequence != start.sequence || c.hash != start.hash {
      var e :| e in events && e.sequence == c.sequence && e.eventHash == c.hash;
      var i :| 0 <= i < |events| && events[i] == e;
      assert forall j :: 0 <= j < |events| && events[j].sequence == c.sequence ==> j == i;
    }
  }

  // ----- resumability

  ghost function ConfigScope(config: Config): ReceiptScopeOf {
    ReceiptScopeOf(config.organizationId, config.projectKey, config.sourceOrigin, config.destinationOrigin)
  }

  /** The receipt that seeded this drain, if any, was accepted at some time. */
  ghost predicate SeedAccepted(config: Config, crypto: Crypto, trustedKeys: map<string, string>, parsedAt: int) {
    config.previous.Some? ==>
      ReceiptVerdict(crypto, config.previous.value, ConfigScope(config), trustedKeys,
                     config.minimumRetentionDays, parsedAt).None?
  }

  /** A returned receipt seeds another drain exactly when the pinned `throughSequence` was the
      sequence of the last drained event (or of the retained head, when nothing was drained) and the
      last acknowledgement has not expired. This covers a drain that sent nothing and carries the
      old acknowledgement on. */
  lemma ReceiptResumesIff(config: Config, crypto: Crypto, env: Environment, receipt: DrainReceipt, log: Log,
                          trustedKeys: map<string, string>, parsedAt: int, now: int)
    requires SeedAccepted(config, crypto, trustedKeys, parsedAt)
    requires Drain(config, crypto, env) == Finished(receipt, log)
    requires config.keyId in trustedKeys && trustedKeys[config.keyId] == config.publicKey
    ensures ReceiptVerdict(crypto, receipt, ConfigScope(config), trustedKeys, config.minimumRetentionDays, now).None?
      <==>
      && receipt.throughSequence == LastSequence(receipt.fromSequence, EventsOf(log.posted))
      && (receipt.lastDestinationAcknowledgement.Some? ==>
            now <= receipt.lastDestinationAcknowledgement.value.statement.immutableUntil)
  {
    EveryDrainIsSafe(config, crypto, env);
    if log.posted == [] {
      CarriedReceiptResumes(config, crypto, receipt, log, trustedKeys, parsedAt, now);
    } else {
      FreshReceiptResumes(config, crypto, receipt, log, trustedKeys, now);
    }
  }

  lemma FreshReceiptResumes(config: Config, crypto: Crypto, receipt: DrainReceipt, log: Log,
                            trustedKeys: map<string, string>, now: int)
    requires Truthful(config, crypto, receipt, log) && log.posted != []
    requires config.keyId in trustedKeys && trustedKeys[config.keyId] == config.publicKey
    ensures ReceiptVerdict(crypto, receipt, ConfigScope(config), trustedKeys, config.minimumRetentionDays, now).None?
      <==>
      && receipt.throughSequence == LastSequence(receipt.fromSequence, EventsOf(log.posted))
      && now <= receipt.lastDestinationAcknowledgement.value.statement.immutableUntil
  {
    LastAckEndsLog(config, crypto, log);
  }

  /** The last acknowledgement of a drain names its last event. */
  lemma LastAckEndsLog(config: Config, crypto: Crypto, log: Log)
    requires SafeLog(config, crypto, log) && |log.acks| == |log.posted| > 0
    ensures var ack := log.acks[|log.acks| - 1];
      && ack.statement.lastSequence == LastSequence(StartSequence(config), EventsOf(log.posted))
      && ack.statement.lastEventHash == LastHash(StartHash(config), EventsOf(log.posted))
      && ack.keyId == config.keyId
      && crypto.verifies(config.publicKey, (ack.statement, ack.keyId), ack.signature)
      && AckRetains(ack.statement, config.minimumRetentionDays)
  {
    PostedSizes(config, crypto, log);
    var n := |log.posted| - 1;
    assert AckAnswers(config, crypto, log, n);
  }

  lemma CarriedReceiptResumes(config: Config, crypto: Crypto, receipt: DrainReceipt, log: Log,
                              trustedKeys: map<string, string>, parsedAt: int, now: int)
    requires SeedAccepted(config, crypto, trustedKeys, parsedAt)
    requires Truthful(config, crypto, receipt, log) && log.posted == []
    ensures ReceiptVerdict(crypto, receipt, ConfigScope(config), trustedKeys, config.minimumRetentionDays, now).None?
      <==>
      && receipt.throughSequence == receipt.fromSequence
      && (receipt.lastDestinationAcknowledgement.Some? ==>
            now <= receipt.lastDestinationAcknowledgement.value.statement.immutableUntil)
  {
    assert EventsOf(log.posted) == [];
  }

  /** The condition of `ReceiptResumesIff` can fail: from a valid first configuration whose release
      checkpoints are all at genesis, a source that has no event but claims any head sequence above 0
      is drained successfully, and the receipt is then refused for ever. */
  lemma UnanchoredHeadIsNotResumable(crypto: Crypto, claimed: nat) returns (config: Config)
    requires 0 < claimed <= MAX_SAFE_INTEGER
    ensures FirstDrainAtGenesis(config) && DrainedThenRefused(config, crypto, claimed)
  {
    config := FirstDrainExists();
    RefusedAfterEmptyPage(config, crypto, claimed);
  }

  ghost predicate DrainedThenRefused(config: Config, crypto: Crypto, claimed: nat) {
    var page := EmptyPage(config, claimed);
    var env := Environment((_, _) => Delivered(page), (_, _) => Rejected, _ => 0);
    exists receipt, log ::
      && Drain(config, crypto, env) == Finished(receipt, log)
      && forall keys, now ::
           ReceiptVerdict(crypto, receipt, ConfigScope(config), keys, config.minimumRetentionDays, now)
           == Some(ReceiptMissingAck)
  }

  ghost predicate FirstDrainAtGenesis(config: Config) {
    && ConfigVerdict(config).None? && config.previous == None
    && forall c :: c in config.checkpoints ==> c.sequence == 0 && c.hash == GENESIS_HASH
  }

  lemma FirstDrainExists() returns (config: Config)
    ensures FirstDrainAtGenesis(config)
  {
    var checkpoints := seq(|RELEASE_CHECKPOINT_NAMES|,
      i requires 0 <= i < |RELEASE_CHECKPOINT_NAMES| => Checkpoint(RELEASE_CHECKPOINT_NAMES[i], 0, GENESIS_HASH));
    GenesisCheckpointsValid(checkpoints);
    var source, receiver := "source", "destination";
    config := Config(source, receiver, "organization", "main", 100, 365, "key", "public", checkpoints, None);
    assert |source| != |receiver|;
  }

  function EmptyPage(config: Config, claimed: nat): AuditPage {
    AuditPage(config.organizationId, config.projectKey, 0, claimed, 0, false,
              Integrity(0, claimed, claimed, GENESIS_HASH), [])
  }

  lemma RefusedAfterEmptyPage(config: Config, crypto: Crypto, claimed: nat)
    requires FirstDrainAtGenesis(config)
    requires 0 < claimed <= MAX_SAFE_INTEGER
    ensures DrainedThenRefused(config, crypto, claimed)
  {
    var page := EmptyPage(config, claimed);
    var env := Environment((_, _) => Delivered(page), (_, _) => Rejected, _ => 0);
    EmptyPageFinishes(config, crypto, env, page);
    var outcome := Drain(config, crypto, env);
    UnboundReceiptRefused(crypto, ConfigScope(config), outcome.receipt, config.minimumRetentionDays);
    assert Drain(config, crypto, env) == Finished(outcome.receipt, outcome.log);
  }

  lemma UnboundReceiptRefused(crypto: Crypto, scope: ReceiptScopeOf, receipt: DrainReceipt, days: int)
    requires ReceiptSchemaHolds(receipt) && ScopeOf(receipt) == scope
    requires receipt.lastDestinationAcknowledgement == None && receipt.throughSequence != 0
    ensures forall keys, now :: ReceiptVerdict(crypto, receipt, scope, keys, days, now) == Some(ReceiptMissingAck)
  {}

  lemma GenesisCheckpointsValid(checkpoints: seq<Checkpoint>)
    requires |checkpoints| == |RELEASE_CHECKPOINT_NAMES|
    requires forall i :: 0 <= i < |checkpoints| ==>
      checkpoints[i] == Checkpoint(RELEASE_CHECKPOINT_NAMES[i], 0, GENESIS_HASH)
    ensures CheckpointSetSchema(checkpoints)
    ensures forall c :: c in checkpoints ==> c.sequence == 0 && c.hash == GENESIS_HASH
  {
    forall name | name in RELEASE_CHECKPOINT_NAMES ensures exists c :: c in checkpoints && c.name == name {
      var i :| 0 <= i < 7 && RELEASE_CHECKPOINT_NAMES[i] == name;
      assert checkpoints[i] in checkpoints;
    }
    forall i, j | 0 <= i < j < 7 ensures checkpoints[i].name != checkpoints[j].name {
      assert |RELEASE_CHECKPOINT_NAMES[i]| != |RELEASE_CHECKPOINT_NAMES[j]|;
    }
  }

  /** A first drain whose only page is empty and final, and whose checkpoints are all at genesis. */
  lemma EmptyPageFinishes(config: Config, crypto: Crypto, env: Environment, page: AuditPage)
    requires FirstDrainAtGenesis(config)
    requires env.source(0, PageRequest(0, config.pageSize, None)) == Delivered(page)
    requires PageSchema(page) && page.events == [] && !page.hasMore
    requires PageVerdict(PageQuery(config.organizationId, config.projectKey, 0, None, None, GENESIS_HASH), page).None?
    ensures var outcome := Drain(config, crypto, env);
      && outcome.Finished?
      && ReceiptSchemaHolds(outcome.receipt) && ScopeOf(outcome.receipt) == ConfigScope(config)
      && outcome.receipt.throughSequence == page.throughSequence
      && outcome.receipt.lastDestinationAcknowledgement == None
      && outcome.receipt.lastDestinationReceiptDigest == None
  {
    hide Step, Drain, PageVerdict, CheckpointSetSchema, ReceiptSchemaHolds, StartingCheckpoints;
    var verified := GenesisVerified(config);
    var s := StartState(config, verified);
    EmptyPageStops(config, crypto, env, s, page);
    DrainStops(config, crypto, env, verified);
  }

  lemma GenesisVerified(config: Config) returns (verified: map<string, Checkpoint>)
    requires FirstDrainAtGenesis(config)
    ensures StartingCheckpoints(config.checkpoints, Head(0, GENESIS_HASH), map[]) == Ok(verified)
    ensures |verified| == |config.checkpoints| && CheckpointSetSchema(config.checkpoints)
  {
    hide StartingCheckpoints, GENESIS_HASH;
    verified := GenesisCheckpointsVerified(config.checkpoints);
  }

  /** A drain whose first step stops. */
  lemma DrainStops(config: Config, crypto: Crypto, env: Environment, verified: map<string, Checkpoint>)
    requires ConfigVerdict(config).None?
    requires StartingCheckpoints(config.checkpoints, Head(StartSequence(config), StartHash(config)), map[])
          == Ok(verified)
    requires Step(config, crypto, env, StartState(config, verified)).Stopped?
    ensures Drain(config, crypto, env) == Step(config, crypto, env, StartState(config, verified)).outcome
  {
    hide Step, StartingCheckpoints, ConfigVerdict;
  }

  lemma GenesisCheckpointsVerified(checkpoints: seq<Checkpoint>) returns (verified: map<string, Checkpoint>)
    requires DistinctNames(checkpoints)
    requires forall c :: c in checkpoints ==> c.sequence == 0 && c.hash == GENESIS_HASH
    ensures StartingCheckpoints(checkpoints, Head(0, GENESIS_HASH), map[]) == Ok(verified)
    ensures |verified| == |checkpoints|
  {
    StartingCheckpointsTrack(checkpoints, Head(0, GENESIS_HASH), map[]);
    verified := StartingCheckpoints(checkpoints, Head(0, GENESIS_HASH), map[]).value;
    NamesCounted(checkpoints);
    assert verified.Keys == set c | c in checkpoints :: c.name;
  }

  lemma EmptyPageStops(config: Config, crypto: Crypto, env: Environment, s: DrainState, page: AuditPage)
    requires CheckpointSetSchema(config.checkpoints) && config.previous == None
    requires s == StartState(config, s.verified) && |s.verified| == |config.checkpoints|
    requires forall c :: c in config.checkpoints ==> c.sequence == 0
    requires env.source(0, PageRequest(0, config.pageSize, None)) == Delivered(page)
    requires PageSchema(page) && page.events == [] && !page.hasMore
    requires PageVerdict(QueryOf(config, s), page).None?
    ensures var r := Step(config, crypto, env, s);
      && r.Stopped? && r.outcome.Finished?
      && var receipt := r.outcome.receipt;
      && ReceiptSchemaHolds(receipt) && ScopeOf(receipt) == ConfigScope(config)
      && receipt.throughSequence == page.throughSequence
      && receipt.lastDestinationAcknowledgement == None
      && receipt.lastDestinationReceiptDigest == None
  {
    var pinned := Pin(s, page);
    assert !AnyBeyond(config.checkpoints, pinned.throughSequence.value);
    assert MatchEvents(config.checkpoints, page.events, s.verified) == Ok(s.verified);
    assert Step(config, crypto, env, s) == Close(config, crypto, env, pinned, page);
  }

  // ----- series of drains

  datatype DrainRun = DrainRun(
    config: Config, env: Environment, trustedKeys: map<string, string>, parsedAt: int,
    receipt: DrainReceipt, log: Log)

  /** Finished drains of one scope, each seeded by the accepted receipt of the one before. Page
      sizes, keys, checkpoints, sources and receivers may differ from drain to drain. */
  ghost predicate Series(crypto: Crypto, scope: ReceiptScopeOf, runs: seq<DrainRun>) {
    && (forall i :: 0 <= i < |runs| ==> FinishedRun(crypto, scope, runs[i]))
    && (forall i :: 0 < i < |runs| ==> runs[i].config.previous == Some(runs[i - 1].receipt))
  }

  ghost predicate FinishedRun(crypto: Crypto, scope: ReceiptScopeOf, run: DrainRun) {
    && ConfigScope(run.config) == scope
    && SeedAccepted(run.config, crypto, run.trustedKeys, run.parsedAt)
    && Drain(run.config, crypto, run.env) == Finished(run.receipt, run.log)
  }

  ghost function AllPosted(runs: seq<DrainRun>): seq<RetentionBatch> {
    if runs == [] then [] else AllPosted(runs[..|runs| - 1]) + runs[|runs| - 1].log.posted
  }

  ghost function AllAcks(runs: seq<DrainRun>): seq<Acknowledgement> {
    if runs == [] then [] else AllAcks(runs[..|runs| - 1]) + runs[|runs| - 1].log.acks
  }

  /** The i-th batch names the acknowledgement before it, and the i-th acknowledgement answers it and
      advances the same receiver. */
  ghost predicate ReceiptLink(crypto: Crypto, digest: Option<string>, previous: Option<Acknowledgement>,
                              posted: seq<RetentionBatch>, acks: seq<Acknowledgement>, i: nat)
    requires i < |posted| == |acks|
  {
    && posted[i].previousReceiptDigest == (if i == 0 then digest else Some(crypto.receiptDigest(acks[i - 1])))
    && AckAdvances(if i == 0 then previous else Some(acks[i - 1]), acks[i])
    && AckMatchesBatch(acks[i].statement, posted[i], crypto.payloadDigest(posted[i]))
  }

  ghost predicate ReceiptChain(crypto: Crypto, digest: Option<string>, previous: Option<Acknowledgement>,
                               posted: seq<RetentionBatch>, acks: seq<Acknowledgement>) {
    && |posted| == |acks|
    && forall i :: 0 <= i < |posted| ==> ReceiptLink(crypto, digest, previous, posted, acks, i)
  }

  lemma LogIsReceiptChain(config: Config, crypto: Crypto, log: Log)
    requires SafeLog(config, crypto, log) && |log.posted| == |log.acks|
    ensures ReceiptChain(crypto, StartDigest(config), StartAcknowledgement(config), log.posted, log.acks)
  {
    forall i | 0 <= i < |log.posted|
      ensures ReceiptLink(crypto, StartDigest(config), StartAcknowledgement(config), log.posted, log.acks, i)
    {
      assert BatchContinues(config, crypto, log, i) && AckAnswers(config, crypto, log, i);
    }
  }

  lemma ReceiptChainsJoin(crypto: Crypto, digest: Option<string>, previous: Option<Acknowledgement>,
                          posted1: seq<RetentionBatch>, acks1: seq<Acknowledgement>,
                          posted2: seq<RetentionBatch>, acks2: seq<Acknowledgement>)
    requires ReceiptChain(crypto, digest, previous, posted1, acks1)
    requires ReceiptChain(crypto,
      if acks1 == [] then digest else Some(crypto.receiptDigest(acks1[|acks1| - 1])),
      if acks1 == [] then previous else Some(acks1[|acks1| - 1]), posted2, acks2)
    ensures ReceiptChain(crypto, digest, previous, posted1 + posted2, acks1 + acks2)
  {
    var posted, acks := posted1 + posted2, acks1 + acks2;
    var n := |posted1|;
    forall i | 0 <= i < |posted| ensures ReceiptLink(crypto, digest, previous, posted, acks, i) {
      if i < n {
        assert ReceiptLink(crypto, digest, previous, posted1, acks1, i);
      } else {
        assert ReceiptLink(crypto,
          if acks1 == [] then digest else Some(crypto.receiptDigest(acks1[n - 1])),
          if acks1 == [] then previous else Some(acks1[n - 1]), posted2, acks2, i - n);
        assert posted[i] == posted2[i - n] && acks[i] == acks2[i - n];
        if i > n {
          assert acks[i - 1] == acks2[i - n - 1];
        } else if i > 0 {
          assert acks[i - 1] == acks1[n - 1];
        }
      }
    }
  }

  lemma {:induction false} EventsOfConcat(a: seq<RetentionBatch>, b: seq<RetentionBatch>)
    ensures EventsOf(a + b) == EventsOf(a) + EventsOf(b)
    decreases |b|
  {
    if b == [] {
      assert a + b == a;
    } else {
      assert (a + b)[..|a + b| - 1] == a + b[..|b| - 1];
      EventsOfConcat(a, b[..|b| - 1]);
    }
  }

  /** What is used of a series: truthful receipts, each an accepted seed of the next drain. */
  ghost predicate TruthfulSeries(crypto: Crypto, scope: ReceiptScopeOf, runs: seq<DrainRun>) {
    && (forall i :: 0 <= i < |runs| ==> TruthfulRun(crypto, scope, runs[i]))
    && (forall i :: 0 < i < |runs| ==> runs[i].config.previous == Some(runs[i - 1].receipt))
  }

  ghost predicate TruthfulRun(crypto: Crypto, scope: ReceiptScopeOf, run: DrainRun) {
    && ConfigScope(run.config) == scope
    && Truthful(run.config, crypto, run.receipt, run.log)
    && (run.config.previous.Some? ==> SeedBound(run.config.previous.value))
  }

  /** An accepted receipt stands at its acknowledgement, or at genesis. */
  ghost predicate SeedBound(receipt: DrainReceipt) {
    match receipt.lastDestinationAcknowledgement
    case Some(ack) =>
      receipt.throughSequence == ack.statement.lastSequence && receipt.headHash == ack.statement.lastEventHash
    case None => receipt.throughSequence == 0 && receipt.headHash == GENESIS_HASH
  }

  lemma FinishedRunIsTruthful(crypto: Crypto, scope: ReceiptScopeOf, run: DrainRun)
    requires FinishedRun(crypto, scope, run)
    ensures TruthfulRun(crypto, scope, run)
  {
    EveryDrainIsSafe(run.config, crypto, run.env);
  }

  /** The chain a series has retained so far. */
  ghost predicate OneChain(crypto: Crypto, scope: ReceiptScopeOf, runs: seq<DrainRun>)
    requires runs != []
  {
    ChainFrom(crypto, scope, runs[0].config, runs[|runs| - 1].receipt, AllPosted(runs), AllAcks(runs))
  }

  ghost predicate ChainFrom(crypto: Crypto, scope: ReceiptScopeOf, first: Config, last: DrainReceipt,
                            posted: seq<RetentionBatch>, acks: seq<Acknowledgement>) {
    var events := EventsOf(posted);
    && Extends(StartSequence(first), StartHash(first), events)
    && InScope(scope.organizationId, scope.projectKey, events)
    && LastHash(StartHash(first), events) == last.headHash
    && LastSequence(StartSequence(first), events) <= last.throughSequence
    && ReceiptChain(crypto, StartDigest(first), StartAcknowledgement(first), posted, acks)
    && last.lastDestinationAcknowledgement ==
         (if acks == [] then StartAcknowledgement(first) else Some(acks[|acks| - 1]))
    && last.lastDestinationReceiptDigest ==
         (if acks == [] then StartDigest(first) else Some(crypto.receiptDigest(acks[|acks| - 1])))
    && (acks != [] ==> LastSequence(StartSequence(first), events) == acks[|acks| - 1].statement.lastSequence)
  }

  /** Over any number of successive drains, everything retained is one strictly increasing,
      hash-linked chain from the first start to the last head, and all acknowledgements are one
      receipt chain. */
  lemma SuccessiveDrainsFormOneChain(crypto: Crypto, scope: ReceiptScopeOf, runs: seq<DrainRun>)
    requires Series(crypto, scope, runs) && runs != []
    ensures OneChain(crypto, scope, runs)
  {
    forall i | 0 <= i < |runs| ensures TruthfulRun(crypto, scope, runs[i]) {
      FinishedRunIsTruthful(crypto, scope, runs[i]);
    }
    TruthfulSeriesIsOneChain(crypto, scope, runs);
  }

  lemma {:induction false} TruthfulSeriesIsOneChain(crypto: Crypto, scope: ReceiptScopeOf, runs: seq<DrainRun>)
    requires TruthfulSeries(crypto, scope, runs) && runs != []
    ensures OneChain(crypto, scope, runs)
    decreases |runs|
  {
    hide OneChain, Truthful, SeedBound;
    var n := |runs| - 1;
    var before, run := runs[..n], runs[n];
    assert TruthfulRun(crypto, scope, run);
    OneDrainIsOneChain(crypto, scope, run);
    if n == 0 {
      assert runs == [run];
    } else {
      assert TruthfulSeries(crypto, scope, before);
      TruthfulSeriesIsOneChain(crypto, scope, before);
      assert before[0] == runs[0] && TruthfulRun(crypto, scope, runs[0]);
      OneMoreDrain(crypto, scope, before, run);
      assert runs == before + [run];
    }
  }

  lemma OneDrainIsOneChain(crypto: Crypto, scope: ReceiptScopeOf, run: DrainRun)
    requires TruthfulRun(crypto, scope, run)
    ensures OneChain(crypto, scope, [run])
  {
    hide AllPosted, AllAcks;
    AllOfAppend([], run);
    assert [] + [run] == [run];
    assert AllPosted([run]) == run.log.posted && AllAcks([run]) == run.log.acks;
    PostedExtend(run.config, crypto, run.log);
    LogIsReceiptChain(run.config, crypto, run.log);
    var events := EventsOf(run.log.posted);
    if events != [] {
      assert events[|events| - 1] in events;
    }
    if run.log.acks != [] {
      LastAckEndsLog(run.config, crypto, run.log);
    }
  }

  lemma OneMoreDrain(crypto: Crypto, scope: ReceiptScopeOf, before: seq<DrainRun>, run: DrainRun)
    requires before != [] && OneChain(crypto, scope, before) && OneChain(crypto, scope, [run])
    requires run.config.previous == Some(before[|before| - 1].receipt)
    requires SeedBound(before[|before| - 1].receipt)
    requires before[0].config.previous.Some? ==> SeedBound(before[0].config.previous.value)
    ensures OneChain(crypto, scope, before + [run])
  {
    hide ChainFrom, AllPosted, AllAcks, SeedBound;
    var all := before + [run];
    AllOfAppend(before, run);
    AllOfAppend([], run);
    assert [] + [run] == [run];
    assert AllPosted([run]) == run.log.posted && AllAcks([run]) == run.log.acks;
    ChainsJoin(crypto, scope, before[0].config, before[|before| - 1].receipt, AllPosted(before), AllAcks(before),
               run.config, run.receipt, run.log.posted, run.log.acks);
  }

  lemma AllOfAppend(runs: seq<DrainRun>, run: DrainRun)
    ensures AllPosted(runs + [run]) == AllPosted(runs) + run.log.posted
    ensures AllAcks(runs + [run]) == AllAcks(runs) + run.log.acks
    ensures AllPosted([]) == [] && AllAcks([]) == []
  {
    assert (runs + [run])[..|runs|] == runs;
  }

  /** An accepted receipt stands exactly where the chain it closes stands. */
  lemma SeedMeetsChain(crypto: Crypto, scope: ReceiptScopeOf, first: Config, last: DrainReceipt,
                       posted: seq<RetentionBatch>, acks: seq<Acknowledgement>)
    requires ChainFrom(crypto, scope, first, last, posted, acks) && SeedBound(last)
    requires first.previous.Some? ==> SeedBound(first.previous.value)
    ensures last.throughSequence == LastSequence(StartSequence(first), EventsOf(posted))
  {
    hide Extends, ReceiptLink;
    if acks == [] {
      assert posted == [];
    }
  }

  /** Two chains, the second seeded by the receipt of the first, are one. */
  lemma ChainsJoin(crypto: Crypto, scope: ReceiptScopeOf,
                   first: Config, middle: DrainReceipt, posted1: seq<RetentionBatch>, acks1: seq<Acknowledgement>,
                   second: Config, last: DrainReceipt, posted2: seq<RetentionBatch>, acks2: seq<Acknowledgement>)
    requires ChainFrom(crypto, scope, first, middle, posted1, acks1)
    requires ChainFrom(crypto, scope, second, last, posted2, acks2)
    requires second.previous == Some(middle) && SeedBound(middle)
    requires first.previous.Some? ==> SeedBound(first.previous.value)
    ensures ChainFrom(crypto, scope, first, last, posted1 + posted2, acks1 + acks2)
  {
    hide Extends, ReceiptChain, SeedBound;
    SeedMeetsChain(crypto, scope, first, middle, posted1, acks1);
    EventsOfConcat(posted1, posted2);
    ExtendsSplit(StartSequence(first), StartHash(first), EventsOf(posted1), EventsOf(posted2));
    ReceiptChainsJoin(crypto, StartDigest(first), StartAcknowledgement(first), posted1, acks1, posted2, acks2);
    if acks2 == [] {
      NothingPosted(crypto, StartDigest(second), StartAcknowledgement(second), posted2);
      assert acks1 + acks2 == acks1 && posted1 + posted2 == posted1;
    }
  }

  lemma NothingPosted(crypto: Crypto, digest: Option<string>, previous: Option<Acknowledgement>,
                      posted: seq<RetentionBatch>)
    requires ReceiptChain(crypto, digest, previous, posted, [])
    ensures posted == []
  {}

  /** Along a receipt chain the receiver stays the same and every later receipt sequence is larger by
      at least the number of receipts in between. */
  lemma {:induction false} ReceiptsIncrease(
    crypto: Crypto, digest: Option<string>, previous: Option<Acknowledgement>,
    posted: seq<RetentionBatch>, acks: seq<Acknowledgement>, i: nat, j: nat)
    requires ReceiptChain(crypto, digest, previous, posted, acks)
    requires i <= j < |acks|
    ensures acks[i].statement.receiverId == acks[j].statement.receiverId
    ensures acks[i].statement.receiptSequence + (j - i) <= acks[j].statement.receiptSequence
    ensures previous.Some? ==>
      && previous.value.statement.receiverId == acks[j].statement.receiverId
      && previous.value.statement.receiptSequence + j + 1 <= acks[j].statement.receiptSequence
    decreases j
  {
    assert ReceiptLink(crypto, digest, previous, posted, acks, j);
    if i < j {
      ReceiptsIncrease(crypto, digest, previous, posted, acks, i, j - 1);
    } else if 0 < j {
      ReceiptsIncrease(crypto, digest, previous, posted, acks, j - 1, j - 1);
    }
  }

  /** No event is ever sent twice, within a drain or across a series. */
  lemma NoEventSentTwice(crypto: Crypto, scope: ReceiptScopeOf, runs: seq<DrainRun>, i: nat, j: nat)
    requires Series(crypto, scope, runs) && runs != []
    requires i < j < |EventsOf(AllPosted(runs))|
    ensures var events := EventsOf(AllPosted(runs)); events[i].sequence < events[j].sequence
  {
    SuccessiveDrainsFormOneChain(crypto, scope, runs);
    ChainIncreases(StartSequence(runs[0].config), StartHash(runs[0].config), EventsOf(AllPosted(runs)));
  }

  // ----- the head determines the history

  /** What an event hash is taken over. */
  datatype HashInput = HashInput(
    previousHash: string, sequence: nat, organizationId: string, projectKey: string, body: string)

  function InputOf(e: AuditEvent): HashInput {
    HashInput(e.previousHash, e.sequence, e.organizationId, e.projectKey, e.body)
  }

  ghost predicate Injective<T(!new)>(f: T -> string) {
    forall x, y :: f(x) == f(y) ==> x == y
  }

  ghost predicate Authentic(hashOf: HashInput -> string, events: seq<AuditEvent>) {
    forall e :: e in events ==> e.eventHash == hashOf(InputOf(e))
  }

  /** `hash` is no event's hash beyond `start`: it is the hash of the event at `start`, or of none. */
  ghost predicate StartsAt(hashOf: HashInput -> string, start: nat, hash: string) {
    forall x :: hashOf(x) == hash ==> x.sequence <= start
  }

  lemma {:induction false} HeadDeterminesEvents(
    hashOf: HashInput -> string, start: nat, hash: string, a: seq<AuditEvent>, b: seq<AuditEvent>)
    requires Injective(hashOf) && StartsAt(hashOf, start, hash)
    requires Extends(start, hash, a) && Extends(start, hash, b)
    requires Authentic(hashOf, a) && Authentic(hashOf, b)
    requires LastHash(hash, a) == LastHash(hash, b)
    ensures a == b
    decreases |a|
  {
    if a == [] || b == [] {
      NoEventHasStartHash(hashOf, start, hash, a);
      NoEventHasStartHash(hashOf, start, hash, b);
    } else {
      var m, n := |a| - 1, |b| - 1;
      LastEventsAgree(hashOf, a[m], b[n]);
      HeadDeterminesEvents(hashOf, start, hash, a[..m], b[..n]);
      assert a == a[..m] + [a[m]] && b == b[..n] + [b[n]];
    }
  }

  lemma NoEventHasStartHash(hashOf: HashInput -> string, start: nat, hash: string, events: seq<AuditEvent>)
    requires StartsAt(hashOf, start, hash) && Extends(start, hash, events) && Authentic(hashOf, events)
    ensures events != [] ==> LastHash(hash, events) != hash
  {
    if events != [] {
      ChainIncreases(start, hash, events);
      var e := events[|events| - 1];
      assert e in events;
      assert e.eventHash == hashOf(InputOf(e));
    }
  }

  lemma LastEventsAgree(hashOf: HashInput -> string, x: AuditEvent, y: AuditEvent)
    requires Injective(hashOf)
    requires Authentic(hashOf, [x]) && Authentic(hashOf, [y]) && x.eventHash == y.eventHash
    ensures x == y
  {
    assert x in [x] && y in [y];
    assert hashOf(InputOf(x)) == hashOf(InputOf(y));
  }

  /** Two finished drains from the same retained head to the same head hash retained the same events,
      whatever the page sizes, sources, receivers and clocks. */
  lemma SameHeadSameHistory(hashOf: HashInput -> string, crypto: Crypto,
                            config1: Config, env1: Environment, config2: Config, env2: Environment)
    requires Injective(hashOf) && StartsAt(hashOf, StartSequence(config1), StartHash(config1))
    requires config1.previous.Some? ==> ReceiptSchemaHolds(config1.previous.value)
    requires config2.previous.Some? ==> ReceiptSchemaHolds(config2.previous.value)
    requires StartHead(config1) == StartHead(config2)
    requires var o1, o2 := Drain(config1, crypto, env1), Drain(config2, crypto, env2);
      && o1.Finished? && o2.Finished? && o1.receipt.headHash == o2.receipt.headHash
      && Authentic(hashOf, EventsOf(o1.log.posted)) && Authentic(hashOf, EventsOf(o2.log.posted))
    ensures var o1, o2 := Drain(config1, crypto, env1), Drain(config2, crypto, env2);
      && EventsOf(o1.log.posted) == EventsOf(o2.log.posted)
      && o1.receipt.eventCount == o2.receipt.eventCount
  {
    EveryDrainIsSafe(config1, crypto, env1);
    EveryDrainIsSafe(config2, crypto, env2);
    var o1, o2 := Drain(config1, crypto, env1), Drain(config2, crypto, env2);
    HeadDeterminesEvents(hashOf, StartSequence(config1), StartHash(config1),
                         EventsOf(o1.log.posted), EventsOf(o2.log.posted));
  }

  /** A batch identity binds the scope, the checkpoint, the receipt predecessor and the exact events. */
  lemma BatchIdBindsEvents(crypto: Crypto, hashOf: HashInput -> string, b1: RetentionBatch, b2: RetentionBatch)
    requires Injective(crypto.batchIdentity) && Injective(hashOf)
    requires b1.events != [] && b2.events != []
    requires b1 == CreateBatch(crypto, b1.sourceOrigin, b1.organizationId, b1.projectKey, b1.checkpoint,
      b1.range.afterSequence, b1.range.previousEventHash, b1.previousReceiptDigest, b1.events)
    requires b2 == CreateBatch(crypto, b2.sourceOrigin, b2.organizationId, b2.projectKey, b2.checkpoint,
      b2.range.afterSequence, b2.range.previousEventHash, b2.previousReceiptDigest, b2.events)
    requires Authentic(hashOf, b1.events) && Authentic(hashOf, b2.events)
    requires b1.batchId == b2.batchId
    ensures b1.organizationId == b2.organizationId && b1.projectKey == b2.projectKey
    ensures b1.checkpoint == b2.checkpoint && b1.previousReceiptDigest == b2.previousReceiptDigest
    ensures b1.events == b2.events
  {
    var i1 := BatchIdentityOf(b1);
    var i2 := BatchIdentityOf(b2);
    assert crypto.batchIdentity(i1) == b1.batchId[6..] && crypto.batchIdentity(i2) == b2.batchId[6..];
    assert i1 == i2;
    SameHashesSameEvents(hashOf, b1.events, b2.events);
  }

  lemma {:induction false} SameHashesSameEvents(
    hashOf: HashInput -> string, a: seq<AuditEvent>, b: seq<AuditEvent>)
    requires Injective(hashOf) && Authentic(hashOf, a) && Authentic(hashOf, b)
    requires EventHashes(a) == EventHashes(b)
    ensures a == b
  {
    if a != [] && b != [] {
      assert EventHashes(a)[0] == EventHashes(b)[0];
      assert EventHashes(a)[1..] == EventHashes(b)[1..];
      assert a[0] in a && b[0] in b;
      SameHashesSameEvents(hashOf, a[1..], b[1..]);
      assert a == [a[0]] + a[1..] && b == [b[0]] + b[1..];
    }
  }

  // ----- retries

  /** What a drain posted, whether it finished or failed. */
  ghost function PostedBy(config: Config, crypto: Crypto, env: Environment): seq<RetentionBatch> {
    Drain(config, crypto, env).log.posted
  }

  ghost function AckedBy(config: Config, crypto: Crypto, env: Environment): seq<Acknowledgement> {
    Drain(config, crypto, env).log.acks
  }

  lemma SameIdentity(crypto: Crypto, b: RetentionBatch, c: RetentionBatch)
    requires Injective(crypto.batchIdentity) && b.events != [] && c.events != []
    requires Identified(crypto, b) && Identified(crypto, c) && b.batchId == c.batchId
    ensures BatchIdentityOf(b) == BatchIdentityOf(c)
  {
    var i1, i2 := BatchIdentityOf(b), BatchIdentityOf(c);
    assert crypto.batchIdentity(i1) == b.batchId[6..] && crypto.batchIdentity(i2) == c.batchId[6..];
  }

  lemma {:induction false} FirstFollows(start: nat, hash: string, events: seq<AuditEvent>)
    requires Extends(start, hash, events) && events != []
    ensures events[0].previousHash == hash
    decreases |events|
  {
    if |events| > 1 {
      FirstFollows(start, hash, events[..|events| - 1]);
    }
  }

  lemma IdentityDetermines(config: Config, crypto: Crypto, hashOf: HashInput -> string, log1: Log, i: nat,
                           log2: Log, j: nat)
    requires Injective(crypto.batchIdentity) && Injective(hashOf)
    requires i < |log1.posted| && i <= |log1.acks| && BatchContinues(config, crypto, log1, i)
    requires j < |log2.posted| && j <= |log2.acks| && BatchContinues(config, crypto, log2, j)
    requires Authentic(hashOf, log1.posted[i].events) && Authentic(hashOf, log2.posted[j].events)
    requires log1.posted[i].batchId == log2.posted[j].batchId
    ensures log1.posted[i] == log2.posted[j]
  {
    hide Authentic, Identified, DigestBefore, InScope, Within, Injective;
    var b, c := log1.posted[i], log2.posted[j];
    SameIdentity(crypto, b, c);
    SameHashesSameEvents(hashOf, b.events, c.events);
    FirstFollows(b.range.afterSequence, b.range.previousEventHash, b.events);
    FirstFollows(c.range.afterSequence, c.range.previousEventHash, c.events);
  }

  /** Two batches of drains from one retained head have one batch id exactly when they are one batch. */
  lemma RetriedBatchIff(config: Config, crypto: Crypto, hashOf: HashInput -> string,
                        env1: Environment, env2: Environment, i: nat, j: nat)
    requires Injective(crypto.batchIdentity) && Injective(hashOf)
    requires config.previous.Some? ==> ReceiptSchemaHolds(config.previous.value)
    requires var b, c := PostedBy(config, crypto, env1), PostedBy(config, crypto, env2);
      i < |b| && j < |c| && Authentic(hashOf, b[i].events) && Authentic(hashOf, c[j].events)
    ensures var b, c := PostedBy(config, crypto, env1)[i], PostedBy(config, crypto, env2)[j];
      b.batchId == c.batchId <==> b == c
  {
    hide Drain;
    EveryDrainIsSafe(config, crypto, env1);
    EveryDrainIsSafe(config, crypto, env2);
    assert BatchContinues(config, crypto, Drain(config, crypto, env1).log, i);
    assert BatchContinues(config, crypto, Drain(config, crypto, env2).log, j);
    var b, c := PostedBy(config, crypto, env1)[i], PostedBy(config, crypto, env2)[j];
    if b.batchId == c.batchId {
      IdentityDetermines(config, crypto, hashOf, Drain(config, crypto, env1).log, i,
                         Drain(config, crypto, env2).log, j);
    }
  }

  /** A retry repeats the batch ids of the first `n` batches exactly when it is pinned to the same head,
      slices the same events into the same pages and its acknowledgements have the same digests. */
  lemma RetryRepeatsIff(config: Config, crypto: Crypto, hashOf: HashInput -> string,
                        env1: Environment, env2: Environment, n: nat)
    requires Injective(crypto.batchIdentity) && Injective(hashOf)
    requires config.previous.Some? ==> ReceiptSchemaHolds(config.previous.value)
    requires var b, c := PostedBy(config, crypto, env1), PostedBy(config, crypto, env2);
      && 0 < n <= |b| && n <= |c|
      && forall i :: 0 <= i < n ==> Authentic(hashOf, b[i].events) && Authentic(hashOf, c[i].events)
    ensures n <= |AckedBy(config, crypto, env1)| + 1 && n <= |AckedBy(config, crypto, env2)| + 1
    ensures var b, c := PostedBy(config, crypto, env1), PostedBy(config, crypto, env2);
      var x, y := AckedBy(config, crypto, env1), AckedBy(config, crypto, env2);
      (forall i :: 0 <= i < n ==> b[i].batchId == c[i].batchId) <==>
        && b[0].checkpoint == c[0].checkpoint
        && (forall i :: 0 <= i < n ==> b[i].events == c[i].events)
        && (forall i :: 0 <= i < n - 1 ==> crypto.receiptDigest(x[i]) == crypto.receiptDigest(y[i]))
  {
    hide Drain, SafeLog, Injective, BatchContinues;
    EveryDrainIsSafe(config, crypto, env1);
    EveryDrainIsSafe(config, crypto, env2);
    var log1, log2 := Drain(config, crypto, env1).log, Drain(config, crypto, env2).log;
    SafeSizes(config, crypto, log1);
    SafeSizes(config, crypto, log2);
    if forall i :: 0 <= i < n ==> log1.posted[i].batchId == log2.posted[i].batchId {
      forall i | 0 <= i < n ensures log1.posted[i] == log2.posted[i] {
        RetriedBatchIff(config, crypto, hashOf, env1, env2, i, i);
      }
      forall i | 0 <= i < n - 1 ensures crypto.receiptDigest(log1.acks[i]) == crypto.receiptDigest(log2.acks[i]) {
        SamePredecessor(config, crypto, log1, log2, i);
      }
    }
    if && log1.posted[0].checkpoint == log2.posted[0].checkpoint
       && (forall i :: 0 <= i < n ==> log1.posted[i].events == log2.posted[i].events)
       && (forall i :: 0 <= i < n - 1 ==> crypto.receiptDigest(log1.acks[i]) == crypto.receiptDigest(log2.acks[i]))
    {
      forall i | 0 <= i < n ensures log1.posted[i].batchId == log2.posted[i].batchId {
        SameSlicesSameId(config, crypto, log1, log2, i);
      }
    }
  }

  lemma SafeSizes(config: Config, crypto: Crypto, log: Log)
    requires SafeLog(config, crypto, log)
    ensures |log.acks| <= |log.posted| <= |log.acks| + 1
  {
    hide BatchContinues, AckAnswers;
  }

  lemma SamePredecessor(config: Config, crypto: Crypto, log1: Log, log2: Log, i: nat)
    requires SafeLog(config, crypto, log1) && SafeLog(config, crypto, log2)
    requires i + 1 < |log1.posted| && i + 1 < |log2.posted| && log1.posted[i + 1] == log2.posted[i + 1]
    ensures crypto.receiptDigest(log1.acks[i]) == crypto.receiptDigest(log2.acks[i])
  {
    hide Identified, Extends, Within, InScope, AckAnswers;
    assert BatchContinues(config, crypto, log1, i + 1) && BatchContinues(config, crypto, log2, i + 1);
  }

  lemma SameSlicesSameId(config: Config, crypto: Crypto, log1: Log, log2: Log, i: nat)
    requires SafeLog(config, crypto, log1) && SafeLog(config, crypto, log2)
    requires i < |log1.posted| && i < |log2.posted| && log1.posted[0].checkpoint == log2.posted[0].checkpoint
    requires forall k :: 0 <= k <= i ==> log1.posted[k].events == log2.posted[k].events
    requires forall k :: 0 <= k < i ==> crypto.receiptDigest(log1.acks[k]) == crypto.receiptDigest(log2.acks[k])
    ensures log1.posted[i].batchId == log2.posted[i].batchId
  {
    hide Extends, Within, InScope, AckAnswers;
    assert BatchContinues(config, crypto, log1, i) && BatchContinues(config, crypto, log2, i);
    SameEvents(log1.posted[..i], log2.posted[..i]);
    assert BatchIdentityOf(log1.posted[i]) == BatchIdentityOf(log2.posted[i]);
  }

  lemma {:induction false} SameEvents(a: seq<RetentionBatch>, b: seq<RetentionBatch>)
    requires |a| == |b| && forall i :: 0 <= i < |a| ==> a[i].events == b[i].events
    ensures EventsOf(a) == EventsOf(b)
  {
    if a == [] {
    } else {
      SameEvents(a[..|a| - 1], b[..|b| - 1]);
    }
  }

  /** A retry that is pinned to another head repeats no batch id, although it posts the events again. */
  lemma MovedHeadRepeatsNoId(config: Config, crypto: Crypto, env1: Environment, env2: Environment, i: nat, j: nat)
    requires Injective(crypto.batchIdentity)
    requires config.previous.Some? ==> ReceiptSchemaHolds(config.previous.value)
    requires i < |PostedBy(config, crypto, env1)| && j < |PostedBy(config, crypto, env2)|
    requires PostedBy(config, crypto, env1)[0].checkpoint != PostedBy(config, crypto, env2)[0].checkpoint
    ensures PostedBy(config, crypto, env1)[i].batchId != PostedBy(config, crypto, env2)[j].batchId
  {
    hide Drain;
    EveryDrainIsSafe(config, crypto, env1);
    EveryDrainIsSafe(config, crypto, env2);
    assert BatchContinues(config, crypto, Drain(config, crypto, env1).log, i);
    assert BatchContinues(config, crypto, Drain(config, crypto, env2).log, j);
    var b, c := PostedBy(config, crypto, env1)[i], PostedBy(config, crypto, env2)[j];
    if b.batchId == c.batchId {
      SameIdentity(crypto, b, c);
    }
  }
}
