/** Against an honest source and a receiver that acknowledges correctly, the paginated drain is the
    simple copy: exactly the events after the retained head up to the head pinned by the first
    response, each once and in order, whatever the page size and whatever is appended meanwhile. */
module DrainRefinement {
  import opened Wrappers
  import opened AuditProtocol
  import opened AuditDrain
  import opened DrainSafety
  import opened DrainTheorems
  import opened HonestSource

  /** The source answers every request from its log at the time of that request. */
  ghost predicate HonestSourceOf(config: Config, env: Environment, history: nat -> seq<AuditEvent>) {
    && AppendOnly(config.organizationId, config.projectKey, history)
    && forall n: nat, request: PageRequest :: env.source(n, request)
         == HonestReply(config.organizationId, config.projectKey, history(n), request)
  }

  /** A correct acknowledgement of `batch`, the `n`-th batch of the drain, signed in time. When every
      page carries events, the n-th acknowledgement is checked at the (3n + 3)-th clock reading. */
  ghost predicate CorrectAck(config: Config, crypto: Crypto, env: Environment,
                             receiverId: string, base: nat, n: nat, batch: RetentionBatch, ack: Acknowledgement) {
    && AckMatchesBatch(ack.statement, batch, crypto.payloadDigest(batch))
    && ack.keyId == config.keyId
    && crypto.verifies(config.publicKey, (ack.statement, ack.keyId), ack.signature)
    && Abs(ack.statement.retainedAt - env.clock(3 * n + 3)) <= CLOCK_SKEW
    && AckRetains(ack.statement, config.minimumRetentionDays)
    && ack.statement.receiverId == receiverId
    && ack.statement.receiptSequence == base + n
  }

  /** The batch the drain forms at position `p` of the log, after a receipt of the given digest. */
  function PageBatch(config: Config, crypto: Crypto, log: seq<AuditEvent>, p: nat, digest: Option<string>)
    : RetentionBatch
    requires p < |log| && 0 < config.pageSize
  {
    CreateBatch(crypto, config.sourceOrigin, config.organizationId, config.projectKey,
                Head(LastSequence(0, log), LastHash(GENESIS_HASH, log)), LastSequence(0, log[..p]),
                LastHash(GENESIS_HASH, log[..p]), digest, log[p..PageEnd(p, config.pageSize, |log|)])
  }

  /** The digests a batch at position `p` can name: the retained one at the start, else that of some
      acknowledgement. */
  ghost predicate Predecessor(config: Config, crypto: Crypto, start: nat, p: nat, digest: Option<string>) {
    if p == start then digest == StartDigest(config)
    else exists ack :: digest == Some(crypto.receiptDigest(ack))
  }

  /** A receiver whose receipt sequence stands at `base` and that acknowledges every batch the drain
      can form. */
  ghost predicate HonestReceiver(config: Config, crypto: Crypto, env: Environment, log: seq<AuditEvent>, start: nat,
                                 receiverId: string, base: nat) {
    && base + MAX_PAGES <= MAX_SAFE_INTEGER
    && (StartAcknowledgement(config).Some? ==>
          && StartAcknowledgement(config).value.statement.receiverId == receiverId
          && StartAcknowledgement(config).value.statement.receiptSequence < base)
    && forall n: nat, p, digest ::
         n < MAX_PAGES && start <= p < |log| && 0 < config.pageSize && Predecessor(config, crypto, start, p, digest) ==>
           Answers(config, crypto, env, receiverId, base, n, PageBatch(config, crypto, log, p, digest))
  }

  ghost predicate Answers(config: Config, crypto: Crypto, env: Environment, receiverId: string, base: nat, n: nat,
                          batch: RetentionBatch) {
    && env.receiver(n, batch).Delivered?
    && CorrectAck(config, crypto, env, receiverId, base, n, batch, env.receiver(n, batch).value)
  }

  /** Every batch the drain can form is at most 8 MiB. */
  ghost predicate BatchesFit(config: Config, crypto: Crypto, log: seq<AuditEvent>, start: nat) {
    forall p, digest ::
      start <= p < |log| && 0 < config.pageSize && Predecessor(config, crypto, start, p, digest) ==>
        crypto.bodyBytes(PageBatch(config, crypto, log, p, digest)) <= MAX_PAGE_BYTES
  }

  /** The retained head is position `start` of the log. */
  ghost predicate StartsOnLog(config: Config, log: seq<AuditEvent>, start: nat) {
    && start <= |log|
    && StartSequence(config) == LastSequence(0, log[..start])
    && StartHash(config) == LastHash(GENESIS_HASH, log[..start])
  }

  /** How many pages of a size some events take; even none take one. */
  function PageCount(events: nat, size: nat): nat
    requires 0 < size
  {
    if events <= size then 1 else 1 + PageCount(events - size, size)
  }

  /** `PageCount` is max(1, ceil(events / size)). */
  lemma {:induction false} PageCountIsCeiling(events: nat, size: nat)
    requires 0 < size
    ensures var pages := PageCount(events, size);
      && events <= pages * size
      && (pages == 1 || (pages - 1) * size < events)
  {
    if events <= size {
    } else {
      PageCountIsCeiling(events - size, size);
      var fewer := PageCount(events - size, size);
      assert (fewer + 1) * size == fewer * size + size;
      assert fewer * size == (fewer - 1) * size + size;
    }
  }

  /** Everything assumed of the configuration and the two parties. */
  ghost predicate Honest(config: Config, crypto: Crypto, env: Environment, history: nat -> seq<AuditEvent>,
                         start: nat, receiverId: string, base: nat) {
    && ConfigVerdict(config).None?
    && (config.previous.Some? ==> ReceiptSchemaHolds(config.previous.value))
    && HonestSourceOf(config, env, history)
    && HonestReceiver(config, crypto, env, history(0), start, receiverId, base)
    && BatchesFit(config, crypto, history(0), start)
    && StartsOnLog(config, history(0), start)
    && (forall c :: c in config.checkpoints ==> Anchored(c, StartHead(config), history(0)[start..]))
    && PageCount(|history(0)| - start, config.pageSize) <= MAX_PAGES
  }

  // ----- the state after some full pages

  /** Full pages have been retained up to position `p` of the pinned log, and events remain (or
      nothing has been read yet). */
  ghost predicate AtPosition(config: Config, crypto: Crypto, pinned: seq<AuditEvent>, start: nat, p: nat,
                             s: DrainState) {
    && Invariant(config, crypto, s)
    && s.ticks == 1 + 3 * s.pageNumber
    && start <= p <= |pinned|
    && EventsOf(s.log.posted) == pinned[start..p]
    && (s.pageNumber == 0 ==> s.throughSequence == None && s.headHash == None)
    && (s.pageNumber > 0 ==> p < |pinned| && PinnedTo(pinned, s))
  }

  ghost predicate PinnedTo(pinned: seq<AuditEvent>, s: DrainState) {
    && s.throughSequence == Some(LastSequence(0, pinned))
    && s.headHash == Some(LastHash(GENESIS_HASH, pinned))
  }

  /** The cursor stands at the chain position. */
  lemma CursorIsPosition(config: Config, crypto: Crypto, pinned: seq<AuditEvent>, start: nat, p: nat, s: DrainState)
    requires StartsOnLog(config, pinned, start) && AtPosition(config, crypto, pinned, start, p, s)
    ensures s.afterSequence == LastSequence(0, pinned[..p])
    ensures s.previousEventHash == LastHash(GENESIS_HASH, pinned[..p])
  {
    LastOfSlice(pinned, start, p);
  }

  /** The honest source's page at the current position passes every check. */
  lemma HonestPageAccepted(query: PageQuery, pinned: seq<AuditEvent>, p: nat, limit: int, page: AuditPage)
    requires ValidLog(query.organizationId, query.projectKey, pinned) && p <= |pinned| && 0 < limit
    requires query.afterSequence == LastSequence(0, pinned[..p])
    requires query.previousEventHash == LastHash(GENESIS_HASH, pinned[..p])
    requires query.throughSequence.Some? ==> query.throughSequence.value == LastSequence(0, pinned)
    requires query.headHash.Some? ==> query.headHash.value == LastHash(GENESIS_HASH, pinned)
    requires NextPage(query.organizationId, query.projectKey, pinned, query.afterSequence, p, limit, page)
    ensures PageVerdict(query, page).None?
  {
    var end := PageEnd(p, limit, |pinned|);
    SliceContinues(query.organizationId, query.projectKey, pinned, p, end);
    LastOfSlice(pinned, p, end);
    assert pinned[..|pinned|] == pinned;
    assert HeaderMatches(query, page);
    assert PageContinues(query, page);
  }

  lemma SliceContinues(organizationId: string, projectKey: string, log: seq<AuditEvent>, p: nat, q: nat)
    requires ValidLog(organizationId, projectKey, log) && p <= q <= |log|
    ensures Extends(LastSequence(0, log[..p]), LastHash(GENESIS_HASH, log[..p]), log[p..q])
    ensures InScope(organizationId, projectKey, log[p..q]) && Within(LastSequence(0, log), log[p..q])
  {
    hide Extends;
    assert log == log[..q] + log[q..] && log[..q] == log[..p] + log[p..q];
    ExtendsSplit(0, GENESIS_HASH, log[..q], log[q..]);
    ExtendsSplit(0, GENESIS_HASH, log[..p], log[p..q]);
    LogWithin(log);
    assert forall e :: e in log[p..q] ==> e in log;
  }

  /** Checkpoints anchored on the log match every page of it. */
  lemma HonestCheckpointsMatch(config: Config, log: seq<AuditEvent>, start: nat, p: nat, q: nat,
                               verified: map<string, Checkpoint>)
    requires ValidLog(config.organizationId, config.projectKey, log)
    requires StartsOnLog(config, log, start) && start <= p <= q <= |log|
    requires forall c :: c in config.checkpoints ==> Anchored(c, StartHead(config), log[start..])
    requires Tracks(config.checkpoints, StartHead(config), log[start..p], verified)
    ensures MatchEvents(config.checkpoints, log[p..q], verified).Ok?
  {
    var rest := log[start..];
    SliceContinues(config.organizationId, config.projectKey, log, start, |log|);
    assert log[start..|log|] == rest;
    MatchEventsTrack(config.checkpoints, StartHead(config), log[start..p], log[p..q], verified);
    forall e, c | e in log[p..q] && c in config.checkpoints && c.sequence == e.sequence
      ensures c.hash == e.eventHash
    {
      var i := PositionInRest(log, start, p, q, e);
      OneHashPerSequence(StartHead(config), rest, c, i);
    }
  }

  lemma PositionInRest(log: seq<AuditEvent>, start: nat, p: nat, q: nat, e: AuditEvent) returns (i: nat)
    requires start <= p <= q <= |log| && e in log[p..q]
    ensures i < |log[start..]| && log[start..][i] == e
  {
    var j :| 0 <= j < q - p && log[p..q][j] == e;
    i := p - start + j;
  }

  lemma HonestCheckpointsInRange(config: Config, log: seq<AuditEvent>, start: nat)
    requires ValidLog(config.organizationId, config.projectKey, log)
    requires StartsOnLog(config, log, start)
    requires forall c :: c in config.checkpoints ==> Anchored(c, StartHead(config), log[start..])
    ensures !AnyBeyond(config.checkpoints, LastSequence(0, log))
  {
    ChainPositions(log, start, |log|);
    LogWithin(log);
    assert log[..|log|] == log;
    forall c | c in config.checkpoints ensures c.sequence <= LastSequence(0, log) {
      assert Anchored(c, StartHead(config), log[start..]);
      if c.sequence != StartSequence(config) {
        var e :| e in log[start..] && e.sequence == c.sequence;
        assert e in log;
      }
    }
  }

  lemma OneHashPerSequence(start: Head, events: seq<AuditEvent>, c: Checkpoint, i: nat)
    requires Extends(start.sequence, start.hash, events) && Anchored(c, start, events)
    requires i < |events| && events[i].sequence == c.sequence
    ensures c.hash == events[i].eventHash
  {
    ChainIncreases(start.sequence, start.hash, events);
    var e :| e in events && e.sequence == c.sequence && e.eventHash == c.hash;
    var j :| 0 <= j < |events| && events[j] == e;
    assert j == i;
  }

  ghost predicate FromReceiver(receiverId: string, base: nat, acks: seq<Acknowledgement>) {
    forall i :: 0 <= i < |acks| ==>
      acks[i].statement.receiverId == receiverId && acks[i].statement.receiptSequence == base + i
  }

  /** The honest receiver's acknowledgement passes every check. */
  lemma HonestAckAccepted(config: Config, crypto: Crypto, env: Environment, receiverId: string, base: nat,
                          s: DrainState, page: AuditPage, verified: map<string, Checkpoint>)
    returns (ack: Acknowledgement)
    requires Invariant(config, crypto, s) && s.pageNumber < MAX_PAGES
    requires s.ticks == 1 + 3 * s.pageNumber && config.pageSize <= MAX_PAGE_EVENTS
    requires 0 < |page.events| <= config.pageSize && PageSchema(page)
    requires base + MAX_PAGES <= MAX_SAFE_INTEGER
    requires StartAcknowledgement(config).Some? ==>
      && StartAcknowledgement(config).value.statement.receiverId == receiverId
      && StartAcknowledgement(config).value.statement.receiptSequence < base
    requires var batch := BatchOf(config, crypto, Pin(s, page), page);
      && crypto.bodyBytes(batch) <= MAX_PAGE_BYTES
      && Answers(config, crypto, env, receiverId, base, s.pageNumber, batch)
    requires FromReceiver(receiverId, base, s.log.acks)
    ensures FromReceiver(receiverId, base, s.log.acks + [ack])
    ensures var tracked := Pin(s, page).(verified := verified);
      Post(config, crypto, env, tracked, page)
        == Advanced(Retained(crypto, tracked, page, BatchOf(config, crypto, tracked, page), ack))
  {
    var n := s.pageNumber;
    var pinned := Pin(s, page);
    var batch := BatchOf(config, crypto, pinned, page);
    ack := env.receiver(n, batch).value;
    assert CorrectAck(config, crypto, env, receiverId, base, n, batch, ack);
    assert |s.log.acks| == |s.log.posted| == n;
    assert AckSchemaHolds(ack) by {
      assert page.events[0] in page.events && page.events[|page.events| - 1] in page.events;
    }
    assert AckAdvances(s.lastAcknowledgement, ack);
    assert AckVerdict(crypto, ack, batch, config.keyId, config.publicKey, config.minimumRetentionDays,
                      env.clock(pinned.ticks + 1), s.lastAcknowledgement).None?;
  }

  // ----- one honest step

  /** `posted` is `s` once the page at hand has been pinned, matched and retained. */
  ghost predicate PageRetained(pinned: seq<AuditEvent>, start: nat, s: DrainState, page: AuditPage,
                               verified: map<string, Checkpoint>, receiverId: string, base: nat, end: nat,
                               posted: DrainState)
    requires start <= end <= |pinned|
  {
    && posted.pageNumber == s.pageNumber
    && (page.events != [] ==> posted.ticks == s.ticks + 3)
    && posted.batchCount == s.pageNumber + (if page.events == [] then 0 else 1)
    && posted.afterSequence == s.afterSequence
    && posted.verified == verified
    && posted.log.pages == s.log.pages + [page]
    && PinnedTo(pinned, posted)
    && EventsOf(posted.log.posted) == pinned[start..end]
    && posted.eventCount == end - start
    && FromReceiver(receiverId, base, posted.log.acks)
  }

  /** What the drain posts at position `p` is the page batch of that position. */
  lemma BatchIsPage(config: Config, crypto: Crypto, log: seq<AuditEvent>, start: nat, p: nat, s: DrainState,
                    page: AuditPage)
    requires 0 < config.pageSize && StartsOnLog(config, log, start) && AtPosition(config, crypto, log, start, p, s)
    requires NextPage(config.organizationId, config.projectKey, log, s.afterSequence, p, config.pageSize, page)
    requires page.events != []
    ensures p < |log|
    ensures BatchOf(config, crypto, Pin(s, page), page) == PageBatch(config, crypto, log, p, s.previousReceiptDigest)
    ensures Predecessor(config, crypto, start, p, s.previousReceiptDigest)
  {
    hide Extends, PageSchema, Tracks;
    CursorIsPosition(config, crypto, log, start, p, s);
    if s.log.posted == [] {
      assert EventsOf(s.log.posted) == [];
    } else {
      PostedSizes(config, crypto, s.log);
      assert s.previousReceiptDigest == Some(crypto.receiptDigest(s.log.acks[|s.log.acks| - 1]));
    }
  }

  lemma HonestAccept(config: Config, crypto: Crypto, env: Environment, log: seq<AuditEvent>,
                     start: nat, receiverId: string, base: nat, p: nat, s: DrainState, page: AuditPage,
                     verified: map<string, Checkpoint>)
    returns (posted: DrainState)
    requires 1 <= config.pageSize <= MAX_PAGE_EVENTS
    requires HonestReceiver(config, crypto, env, log, start, receiverId, base) && BatchesFit(config, crypto, log, start)
    requires StartsOnLog(config, log, start)
    requires AtPosition(config, crypto, log, start, p, s) && s.pageNumber < MAX_PAGES
    requires FromReceiver(receiverId, base, s.log.acks)
    requires NextPage(config.organizationId, config.projectKey, log, s.afterSequence, p, config.pageSize, page)
    requires !AnyBeyond(config.checkpoints, LastSequence(0, log))
    requires MatchEvents(config.checkpoints, page.events, s.verified) == Ok(verified)
    ensures PageRetained(log, start, s, page, verified, receiverId, base, PageEnd(p, config.pageSize, |log|), posted)
    ensures Accept(config, crypto, env, Pin(s, page), page) == Close(config, crypto, env, posted, page)
  {
    var tracked := Pin(s, page).(verified := verified);
    if page.events == [] {
      posted := tracked;
      EmptyPageRetained(config, log, start, p, s, page, verified, receiverId, base);
    } else {
      BatchIsPage(config, crypto, log, start, p, s, page);
      var ack := HonestAckAccepted(config, crypto, env, receiverId, base, s, page, verified);
      posted := Retained(crypto, tracked, page, BatchOf(config, crypto, tracked, page), ack);
      FullPageRetained(config, crypto, log, start, p, s, page, verified, receiverId, base, ack);
    }
    AcceptIs(config, crypto, env, Pin(s, page), page, verified, posted);
  }

  lemma EmptyPageRetained(config: Config, log: seq<AuditEvent>, start: nat, p: nat, s: DrainState, page: AuditPage,
                          verified: map<string, Checkpoint>, receiverId: string, base: nat)
    requires start <= p <= |log| && 0 < config.pageSize
    requires s.batchCount == s.pageNumber && s.eventCount == p - start
    requires EventsOf(s.log.posted) == log[start..p] && FromReceiver(receiverId, base, s.log.acks)
    requires s.throughSequence.Some? || s.headHash.Some? ==> PinnedTo(log, s)
    requires NextPage(config.organizationId, config.projectKey, log, s.afterSequence, p, config.pageSize, page)
    requires page.events == []
    ensures PageRetained(log, start, s, page, verified, receiverId, base, PageEnd(p, config.pageSize, |log|),
                         Pin(s, page).(verified := verified))
  {
    assert PageEnd(p, config.pageSize, |log|) == p;
  }

  lemma FullPageRetained(config: Config, crypto: Crypto, log: seq<AuditEvent>, start: nat, p: nat, s: DrainState,
                         page: AuditPage, verified: map<string, Checkpoint>, receiverId: string, base: nat,
                         ack: Acknowledgement)
    requires start <= p <= |log| && 0 < config.pageSize
    requires s.batchCount == s.pageNumber && s.eventCount == p - start
    requires EventsOf(s.log.posted) == log[start..p] && FromReceiver(receiverId, base, s.log.acks + [ack])
    requires s.throughSequence.Some? || s.headHash.Some? ==> PinnedTo(log, s)
    requires NextPage(config.organizationId, config.projectKey, log, s.afterSequence, p, config.pageSize, page)
    requires page.events != []
    ensures var tracked := Pin(s, page).(verified := verified);
      PageRetained(log, start, s, page, verified, receiverId, base, PageEnd(p, config.pageSize, |log|),
                   Retained(crypto, tracked, page, BatchOf(config, crypto, tracked, page), ack))
  {
    var tracked := Pin(s, page).(verified := verified);
    var batch := BatchOf(config, crypto, tracked, page);
    var end := PageEnd(p, config.pageSize, |log|);
    var posted := Retained(crypto, tracked, page, batch, ack);
    assert posted.log.posted == s.log.posted + [batch] && posted.log.acks == s.log.acks + [ack];
    RetainedEvents(s.log.posted, batch);
    SlicesJoin(log, start, p, end);
    assert EventsOf(posted.log.posted) == log[start..end];
    assert PinnedTo(log, posted);
  }

  lemma SlicesJoin(log: seq<AuditEvent>, i: nat, j: nat, k: nat)
    requires i <= j <= k <= |log|
    ensures log[i..j] + log[j..k] == log[i..k]
  {}

  lemma RetainedEvents(posted: seq<RetentionBatch>, batch: RetentionBatch)
    ensures EventsOf(posted + [batch]) == EventsOf(posted) + batch.events
  {
    assert (posted + [batch])[..|posted|] == posted;
  }

  lemma AcceptIs(config: Config, crypto: Crypto, env: Environment, s: DrainState, page: AuditPage,
                 verified: map<string, Checkpoint>, posted: DrainState)
    requires s.throughSequence.Some? && s.headHash.Some?
    requires !AnyBeyond(config.checkpoints, s.throughSequence.value)
    requires MatchEvents(config.checkpoints, page.events, s.verified) == Ok(verified)
    requires Post(config, crypto, env, s.(verified := verified), page) == Advanced(posted)
    ensures posted.throughSequence.Some? && posted.headHash.Some?
    ensures Accept(config, crypto, env, s, page) == Close(config, crypto, env, posted, page)
  {}

  /** Where an honest step leads: to the next position, or to the end of the pinned log. */
  ghost predicate HonestResult(config: Config, crypto: Crypto, pinned: seq<AuditEvent>, start: nat, p: nat,
                               s: DrainState, receiverId: string, base: nat, r: StepResult)
    requires start <= p <= |pinned| && 0 < config.pageSize
  {
    var end := PageEnd(p, config.pageSize, |pinned|);
    if end < |pinned| then
      && r.Advanced?
      && AtPosition(config, crypto, pinned, start, end, r.state)
      && r.state.pageNumber == s.pageNumber + 1
      && FromReceiver(receiverId, base, r.state.log.acks)
    else
      && r.Stopped?
      && HonestEnd(pinned, start, receiverId, base, s.pageNumber + 1, r.outcome)
  }

  /** The drain finished at the end of the pinned log after `pages` pages. */
  ghost predicate HonestEnd(pinned: seq<AuditEvent>, start: nat, receiverId: string, base: nat, pages: nat,
                            outcome: Outcome)
    requires start <= |pinned|
  {
    && outcome.Finished?
    && FromReceiver(receiverId, base, outcome.log.acks)
    && EventsOf(outcome.log.posted) == pinned[start..]
    && |outcome.log.pages| == pages
    && outcome.receipt.eventCount == |pinned| - start
    && outcome.receipt.batchCount == (if start == |pinned| then 0 else pages)
    && outcome.receipt.throughSequence == LastSequence(0, pinned)
    && outcome.receipt.headHash == LastHash(GENESIS_HASH, pinned)
  }

  lemma HonestStep(config: Config, crypto: Crypto, env: Environment, history: nat -> seq<AuditEvent>,
                   start: nat, receiverId: string, base: nat, p: nat, s: DrainState)
    requires Honest(config, crypto, env, history, start, receiverId, base)
    requires AtPosition(config, crypto, history(0), start, p, s) && s.pageNumber < MAX_PAGES
    requires FromReceiver(receiverId, base, s.log.acks)
    ensures HonestResult(config, crypto, history(0), start, p, s, receiverId, base, Step(config, crypto, env, s))
  {
    hide Accept, PageVerdict, HonestReply, SafeLog, CorrectAck, Extends, Anchored, MatchEvents, AnyBeyond, PageCount;
    var log := history(0);
    var page := HonestReceives(config, env, history, start, p, crypto, s);
    var end := PageEnd(p, config.pageSize, |log|);
    var verified := HonestMatch(config, crypto, log, start, p, s, end);
    var posted := HonestAccept(config, crypto, env, log, start, receiverId, base, p, s, page, verified);
    StepKeepsInvariant(config, crypto, env, s);
    assert s.pageNumber == 0 ==> p == start by {
      assert s.log.posted == [] || s.pageNumber > 0;
    }
    if page.hasMore {
      HonestAdvance(config, crypto, env, log, start, p, s, page, verified, receiverId, base, posted);
    } else {
      HonestFinish(config, crypto, env, log, start, p, s, page, verified, receiverId, base, posted);
    }
  }

  lemma PositionTracks(config: Config, crypto: Crypto, log: seq<AuditEvent>, start: nat, p: nat, s: DrainState)
    requires AtPosition(config, crypto, log, start, p, s)
    ensures start <= p <= |log| && Tracks(config.checkpoints, StartHead(config), log[start..p], s.verified)
  {
    hide SafeLog, Tracks;
  }

  lemma HonestMatch(config: Config, crypto: Crypto, log: seq<AuditEvent>, start: nat, p: nat, s: DrainState, end: nat)
    returns (verified: map<string, Checkpoint>)
    requires ValidLog(config.organizationId, config.projectKey, log) && StartsOnLog(config, log, start)
    requires forall c :: c in config.checkpoints ==> Anchored(c, StartHead(config), log[start..])
    requires DistinctNames(config.checkpoints)
    requires AtPosition(config, crypto, log, start, p, s) && p <= end <= |log|
    ensures !AnyBeyond(config.checkpoints, LastSequence(0, log))
    ensures MatchEvents(config.checkpoints, log[p..end], s.verified) == Ok(verified)
    ensures end == |log| ==> |verified| == |config.checkpoints|
  {
    hide AtPosition, Anchored, Tracks, ValidLog, MatchEvents, AnyBeyond;
    PositionTracks(config, crypto, log, start, p, s);
    HonestCheckpointsInRange(config, log, start);
    HonestCheckpointsMatch(config, log, start, p, end, s.verified);
    verified := MatchEvents(config.checkpoints, log[p..end], s.verified).value;
    if end == |log| {
      HonestMatchesAll(config, log, start, p, s.verified, verified);
    }
  }

  /** On the last page every checkpoint has been verified. */
  lemma HonestMatchesAll(config: Config, log: seq<AuditEvent>, start: nat, p: nat,
                         before: map<string, Checkpoint>, verified: map<string, Checkpoint>)
    requires start <= p <= |log| && DistinctNames(config.checkpoints)
    requires forall c :: c in config.checkpoints ==> Anchored(c, StartHead(config), log[start..])
    requires Tracks(config.checkpoints, StartHead(config), log[start..p], before)
    requires MatchEvents(config.checkpoints, log[p..|log|], before) == Ok(verified)
    ensures |verified| == |config.checkpoints|
  {
    hide Anchored, Tracks, MatchEvents, DistinctNames;
    MatchEventsTrack(config.checkpoints, StartHead(config), log[start..p], log[p..|log|], before);
    assert log[start..p] + log[p..|log|] == log[start..];
    AllReachedVerified(config.checkpoints, StartHead(config), log[start..], verified);
  }

  lemma HonestReceives(config: Config, env: Environment, history: nat -> seq<AuditEvent>,
                       start: nat, p: nat, crypto: Crypto, s: DrainState) returns (page: AuditPage)
    requires 1 <= config.pageSize <= MAX_PAGE_EVENTS && HonestSourceOf(config, env, history)
    requires StartsOnLog(config, history(0), start)
    requires AtPosition(config, crypto, history(0), start, p, s)
    ensures NextPage(config.organizationId, config.projectKey, history(0), s.afterSequence, p, config.pageSize, page)
    ensures Step(config, crypto, env, s) == Accept(config, crypto, env, Pin(s, page), page)
  {
    hide Extends, Accept, PageVerdict, NextPage, SafeLog, HonestReply;
    var log, current := history(0), history(s.pageNumber);
    var request := PageRequestOf(config, s);
    CursorIsPosition(config, crypto, log, start, p, s);
    assert ValidLog(config.organizationId, config.projectKey, current) && log <= current;
    assert ValidLog(config.organizationId, config.projectKey, log);
    PositionIsCursor(log, p);
    HonestPage(config.organizationId, config.projectKey, log, current, p, request);
    page := env.source(s.pageNumber, request).value;
    HonestPageAccepted(QueryOf(config, s), log, p, config.pageSize, page);
  }

  lemma HonestAdvance(config: Config, crypto: Crypto, env: Environment, log: seq<AuditEvent>, start: nat, p: nat,
                      s: DrainState, page: AuditPage, verified: map<string, Checkpoint>,
                      receiverId: string, base: nat, posted: DrainState)
    requires 0 < config.pageSize && AtPosition(config, crypto, log, start, p, s)
    requires NextPage(config.organizationId, config.projectKey, log, s.afterSequence, p, config.pageSize, page)
    requires page.hasMore
    requires PageRetained(log, start, s, page, verified, receiverId, base, PageEnd(p, config.pageSize, |log|), posted)
    requires GoodStep(config, crypto, s, Close(config, crypto, env, posted, page))
    ensures HonestResult(config, crypto, log, start, p, s, receiverId, base, Close(config, crypto, env, posted, page))
  {
    var r := Close(config, crypto, env, posted, page);
    assert r.Advanced?;
    assert page.events != [];
  }

  lemma HonestFinish(config: Config, crypto: Crypto, env: Environment, log: seq<AuditEvent>, start: nat, p: nat,
                     s: DrainState, page: AuditPage, verified: map<string, Checkpoint>,
                     receiverId: string, base: nat, posted: DrainState)
    requires 0 < config.pageSize && start <= p <= |log| && |s.log.pages| == s.pageNumber
    requires if s.pageNumber == 0 then p == start else p < |log|
    requires NextPage(config.organizationId, config.projectKey, log, s.afterSequence, p, config.pageSize, page)
    requires !page.hasMore
    requires PageRetained(log, start, s, page, verified, receiverId, base, PageEnd(p, config.pageSize, |log|), posted)
    requires |verified| == |config.checkpoints|
    ensures var r := Close(config, crypto, env, posted, page);
      && r.Stopped?
      && (r.outcome.Failed? ==> r.outcome.error == FinalReceiptInvalid)
      && (r.outcome.Finished? ==> HonestEnd(log, start, receiverId, base, s.pageNumber + 1, r.outcome))
  {
    assert log[start..|log|] == log[start..];
  }

  /** When every checkpoint is anchored on what was drained, all of them are verified. */
  lemma AllReachedVerified(checkpoints: seq<Checkpoint>, start: Head, events: seq<AuditEvent>,
                           verified: map<string, Checkpoint>)
    requires DistinctNames(checkpoints) && Tracks(checkpoints, start, events, verified)
    requires forall c :: c in checkpoints ==> Anchored(c, start, events)
    ensures |verified| == |checkpoints|
  {
    NamesCounted(checkpoints);
    forall c | c in checkpoints ensures c.name in verified {
      assert Anchored(c, start, events);
      assert Reached(c, start, events);
    }
    assert verified.Keys == set c | c in checkpoints :: c.name;
  }

  // ----- the whole run

  lemma {:induction false} HonestRun(
    config: Config, crypto: Crypto, env: Environment, history: nat -> seq<AuditEvent>,
    start: nat, receiverId: string, base: nat, p: nat, s: DrainState)
    requires Honest(config, crypto, env, history, start, receiverId, base)
    requires AtPosition(config, crypto, history(0), start, p, s)
    requires s.pageNumber + PageCount(|history(0)| - p, config.pageSize) <= MAX_PAGES
    requires FromReceiver(receiverId, base, s.log.acks)
    ensures HonestEnd(history(0), start, receiverId, base, s.pageNumber + PageCount(|history(0)| - p, config.pageSize),
                      RunFrom(config, crypto, env, s))
    decreases MAX_PAGES - s.pageNumber
  {
    hide Honest, Step, FromReceiver, HonestEnd, RunFrom, PageCount, AtPosition;
    HonestBounds(config, crypto, env, history, start, receiverId, base, p, s);
    PagesLeft(|history(0)|, p, config.pageSize);
    HonestStep(config, crypto, env, history, start, receiverId, base, p, s);
    RunFromStep(config, crypto, env, s);
    var end := PageEnd(p, config.pageSize, |history(0)|);
    if end < |history(0)| {
      HonestRun(config, crypto, env, history, start, receiverId, base, end, Step(config, crypto, env, s).state);
    }
  }

  lemma HonestBounds(config: Config, crypto: Crypto, env: Environment, history: nat -> seq<AuditEvent>,
                     start: nat, receiverId: string, base: nat, p: nat, s: DrainState)
    requires Honest(config, crypto, env, history, start, receiverId, base)
    requires AtPosition(config, crypto, history(0), start, p, s)
    ensures config.pageSize > 0 && start <= p <= |history(0)|
    ensures forall n: nat :: PageCount(n, config.pageSize) >= 1
  {
    hide Invariant;
  }

  lemma PagesLeft(n: nat, p: nat, size: nat)
    requires p <= n && 0 < size
    ensures PageCount(n - p, size) ==
      if PageEnd(p, size, n) < n then 1 + PageCount(n - PageEnd(p, size, n), size) else 1
  {
    if p + size < n { assert n - PageEnd(p, size, n) == n - p - size; }
  }

  lemma RunFromStep(config: Config, crypto: Crypto, env: Environment, s: DrainState)
    requires s.pageNumber < MAX_PAGES
    ensures var r := Step(config, crypto, env, s);
      RunFrom(config, crypto, env, s) == if r.Stopped? then r.outcome else RunFrom(config, crypto, env, r.state)
  {
    hide Step;
  }

  /** The drain refines the plain copy of a log slice: it succeeds, the posted events are exactly the
      log from the retained head to the head at the first request, and it takes
      max(1, ceil(n / pageSize)) pages, one batch each unless there is nothing to send. */
  lemma DrainCopiesPinnedSlice(config: Config, crypto: Crypto, env: Environment, history: nat -> seq<AuditEvent>,
                               start: nat, receiverId: string, base: nat)
    requires Honest(config, crypto, env, history, start, receiverId, base)
    ensures var n := |history(0)| - start;
      HonestEnd(history(0), start, receiverId, base, PageCount(n, config.pageSize), Drain(config, crypto, env))
  {
    hide HonestEnd, RunFrom, Drain, AtPosition, Anchored, PageCount, Extends, HonestReceiver, BatchesFit, HonestReply;
    var log := history(0);
    assert ValidLog(config.organizationId, config.projectKey, log);
    CheckpointsFromStart(config, log, start);
    var s := HonestStart(config, crypto, env, log, start);
    HonestRun(config, crypto, env, history, start, receiverId, base, start, s);
  }

  lemma HonestStart(config: Config, crypto: Crypto, env: Environment, log: seq<AuditEvent>, start: nat)
    returns (s: DrainState)
    requires ConfigVerdict(config).None? && StartsOnLog(config, log, start)
    requires forall c :: c in config.checkpoints ==>
      && StartSequence(config) <= c.sequence
      && (c.sequence == StartSequence(config) ==> c.hash == StartHash(config))
    ensures AtPosition(config, crypto, log, start, start, s) && s.pageNumber == 0 && s.log.acks == []
    ensures Drain(config, crypto, env) == RunFrom(config, crypto, env, s)
  {
    StartingCheckpointsTrack(config.checkpoints, StartHead(config), map[]);
    var verified := StartingCheckpoints(config.checkpoints, StartHead(config), map[]).value;
    StartIsInvariant(config, crypto, verified);
    s := StartState(config, verified);
    assert log[start..start] == [];
  }

  /** Checkpoints anchored on the log never precede or contradict the retained head. */
  lemma CheckpointsFromStart(config: Config, log: seq<AuditEvent>, start: nat)
    requires ValidLog(config.organizationId, config.projectKey, log) && StartsOnLog(config, log, start)
    requires forall c :: c in config.checkpoints ==> Anchored(c, StartHead(config), log[start..])
    ensures forall c :: c in config.checkpoints ==>
      && StartSequence(config) <= c.sequence
      && (c.sequence == StartSequence(config) ==> c.hash == StartHash(config))
  {
    SliceContinues(config.organizationId, config.projectKey, log, start, |log|);
    assert log[start..|log|] == log[start..];
    ChainIncreases(StartSequence(config), StartHash(config), log[start..]);
    forall c | c in config.checkpoints
      ensures StartSequence(config) <= c.sequence
      ensures c.sequence == StartSequence(config) ==> c.hash == StartHash(config)
    {
      assert Anchored(c, StartHead(config), log[start..]);
    }
  }

  // ----- honest drains go on

  /** Against honest parties every returned receipt is accepted as the next seed until its last
      acknowledgement expires. A drain seeded by it starts on every later log where this one ended, at a
      receiver that stands at least at the next receipt sequence: the premises of the refinement that
      concern the seed hold again. */
  lemma HonestDrainsGoOn(config: Config, crypto: Crypto, env: Environment, history: nat -> seq<AuditEvent>,
                         start: nat, receiverId: string, base: nat, trustedKeys: map<string, string>, parsedAt: int,
                         now: int, next: Config, later: seq<AuditEvent>)
    requires Honest(config, crypto, env, history, start, receiverId, base)
    requires SeedAccepted(config, crypto, trustedKeys, parsedAt)
    requires config.keyId in trustedKeys && trustedKeys[config.keyId] == config.publicKey
    requires history(0) <= later
    requires Drain(config, crypto, env).Finished? ==> next.previous == Some(Drain(config, crypto, env).receipt)
    ensures Drain(config, crypto, env).Finished?
    ensures var receipt := Drain(config, crypto, env).receipt;
      && ReceiptSchemaHolds(receipt)
      && (ReceiptVerdict(crypto, receipt, ConfigScope(config), trustedKeys, config.minimumRetentionDays, now).None?
          <==> (receipt.lastDestinationAcknowledgement.Some? ==>
                  now <= receipt.lastDestinationAcknowledgement.value.statement.immutableUntil))
      && StartsOnLog(next, later, |history(0)|)
      && (StartAcknowledgement(next).Some? ==>
            && StartAcknowledgement(next).value.statement.receiverId == receiverId
            && StartAcknowledgement(next).value.statement.receiptSequence < base + receipt.batchCount)
  {
    hide Drain, SafeLog, ReceiptVerdict, ReceiptSchemaHolds, HonestSourceOf, PageCount, Anchored, Extends, BatchesFit;
    DrainCopiesPinnedSlice(config, crypto, env, history, start, receiverId, base);
    EveryDrainIsSafe(config, crypto, env);
    var outcome, pinned := Drain(config, crypto, env), history(0);
    ReceiptResumesIff(config, crypto, env, outcome.receipt, outcome.log, trustedKeys, parsedAt, now);
    LastOfSlice(pinned, start, |pinned|);
    assert pinned[start..|pinned|] == pinned[start..] && pinned[..|pinned|] == pinned && later[..|pinned|] == pinned;
  }

  // ----- the premises can be met

  /** An acknowledgement that answers `batch` in every field, as the `n`-th of a drain at time 0. */
  function Answer(config: Config, crypto: Crypto, sign: ((Statement, string)) -> string,
                  receiverId: string, base: nat, n: nat, batch: RetentionBatch): Acknowledgement
  {
    var statement :=
      Statement(receiverId, "receipt", base + n, batch.organizationId, batch.projectKey, batch.batchId,
                crypto.payloadDigest(batch), batch.previousReceiptDigest, batch.range.firstSequence,
                batch.range.lastSequence, batch.range.eventCount, batch.range.lastEventHash, 0,
                config.minimumRetentionDays * DAY);
    Acknowledgement(statement, config.keyId, sign((statement, config.keyId)))
  }

  /** For every valid configuration whose retained head and checkpoints are on an append-only log, every
      choice of digests and byte length under which the page batches fit, and every signature scheme the
      receiver can sign with, there is an honest environment, so that `DrainCopiesPinnedSlice` applies. */
  lemma HonestPartiesExist(config: Config, crypto: Crypto, sign: ((Statement, string)) -> string,
                           history: nat -> seq<AuditEvent>, start: nat, receiverId: string, base: nat)
    returns (env: Environment)
    requires ConfigVerdict(config).None?
    requires config.previous.Some? ==> ReceiptSchemaHolds(config.previous.value)
    requires AppendOnly(config.organizationId, config.projectKey, history)
    requires StartsOnLog(config, history(0), start) && base + MAX_PAGES <= MAX_SAFE_INTEGER
    requires StartAcknowledgement(config).Some? ==>
      && StartAcknowledgement(config).value.statement.receiverId == receiverId
      && StartAcknowledgement(config).value.statement.receiptSequence < base
    requires forall c :: c in config.checkpoints ==> Anchored(c, StartHead(config), history(0)[start..])
    requires PageCount(|history(0)| - start, config.pageSize) <= MAX_PAGES
    requires BatchesFit(config, crypto, history(0), start)
    requires forall message :: crypto.verifies(config.publicKey, message, sign(message))
    ensures Honest(config, crypto, env, history, start, receiverId, base)
  {
    hide Extends, HonestReply, Anchored, ConfigVerdict, PageCount, BatchesFit, PageBatch, Predecessor,
         ReceiptSchemaHolds;
    env := Environment(
      (n: nat, request: PageRequest) => HonestReply(config.organizationId, config.projectKey, history(n), request),
      (n: nat, batch: RetentionBatch) => Delivered(Answer(config, crypto, sign, receiverId, base, n, batch)),
      _ => 0);
    forall n: nat, batch: RetentionBatch
      ensures Answers(config, crypto, env, receiverId, base, n, batch)
    {
      assert env.receiver(n, batch) == Delivered(Answer(config, crypto, sign, receiverId, base, n, batch));
    }
  }
}
