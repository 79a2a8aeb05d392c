/** `drainAuditRetention` (scripts/export-audit-retention.ts): the loop that copies an audit log,
    page by page, to an independent receiver.

    The source, the receiver and the clock are oracles. Each answers the n-th call made to it
    however it likes, so quantifying over `Environment` quantifies over every adversary. */
module AuditDrain {
  import opened Wrappers
  import opened AuditProtocol

  const MAX_PAGES: nat := 10_000
  const MAX_PAGE_BYTES: nat := 8 * 1024 * 1024

  datatype Config = Config(
    sourceOrigin: string, destinationOrigin: string, organizationId: string, projectKey: string,
    pageSize: int, minimumRetentionDays: int, keyId: string, publicKey: string,
    checkpoints: seq<Checkpoint>, previous: Option<DrainReceipt>)

  datatype PageRequest = PageRequest(after: nat, limit: int, through: Option<nat>)

  /** A non-success status, a body of the wrong shape, or a parsed body. */
  datatype Reply<+T> = Rejected | Malformed | Delivered(value: T)

  datatype Environment = Environment(
    source: (nat, PageRequest) -> Reply<AuditPage>,
    receiver: (nat, RetentionBatch) -> Reply<Acknowledgement>,
    clock: nat -> int)

  datatype DrainError =
    | SameOrigin | PageSizeOutOfRange | RetentionDaysOutOfRange | CheckpointSetInvalid
    | CheckpointPrecedesState | CheckpointNotRetainedHead
    | SourceRejected | PageMalformed | Protocol(error: ProtocolError)
    | CheckpointBeyondHead | CheckpointHashMismatch
    | BatchTooLarge | ReceiverRejected
    | CheckpointsUnverified | FinalReceiptInvalid | CursorStalled | PageBoundExceeded

  /** What left the process: accepted pages, posted batches and verified acknowledgements. */
  datatype Log = Log(pages: seq<AuditPage>, posted: seq<RetentionBatch>, acks: seq<Acknowledgement>)

  datatype Outcome = Finished(receipt: DrainReceipt, log: Log) | Failed(error: DrainError, log: Log)

  datatype StepResult = Advanced(state: DrainState) | Stopped(outcome: Outcome)

  /** The loop variables, the number of `now()` calls made so far, and the log. */
  datatype DrainState = DrainState(
    pageNumber: nat, ticks: nat,
    afterSequence: nat, throughSequence: Option<nat>, headHash: Option<string>,
    previousEventHash: string, previousReceiptDigest: Option<string>,
    lastAcknowledgement: Option<Acknowledgement>,
    eventCount: nat, batchCount: nat,
    verified: map<string, Checkpoint>, log: Log)

  function StartSequence(config: Config): nat {
    if config.previous.Some? then config.previous.value.throughSequence else 0
  }

  function StartHash(config: Config): string {
    if config.previous.Some? then config.previous.value.headHash else GENESIS_HASH
  }

  function StartDigest(config: Config): Option<string> {
    if config.previous.Some? then config.previous.value.lastDestinationReceiptDigest else None
  }

  function StartAcknowledgement(config: Config): Option<Acknowledgement> {
    if config.previous.Some? then config.previous.value.lastDestinationAcknowledgement else None
  }

  // ----- release checkpoints

  /** The checkpoints that sit exactly on the retained head, or the first that cannot be verified. */
  function StartingCheckpoints(checkpoints: seq<Checkpoint>, start: Head, verified: map<string, Checkpoint>)
    : Result<map<string, Checkpoint>, DrainError>
  {
    if checkpoints == [] then Ok(verified)
    else
      var c := checkpoints[0];
      if c.sequence < start.sequence then Err(CheckpointPrecedesState)
      else if c.sequence == start.sequence && c.hash != start.hash then Err(CheckpointNotRetainedHead)
      else StartingCheckpoints(checkpoints[1..], start,
                               if c.sequence == start.sequence then verified[c.name := c] else verified)
  }

  function MatchEvent(checkpoints: seq<Checkpoint>, event: AuditEvent, verified: map<string, Checkpoint>)
    : Result<map<string, Checkpoint>, DrainError>
  {
    if checkpoints == [] then Ok(verified)
    else
      var c := checkpoints[0];
      if event.sequence != c.sequence then MatchEvent(checkpoints[1..], event, verified)
      else if event.eventHash != c.hash then Err(CheckpointHashMismatch)
      else MatchEvent(checkpoints[1..], event, verified[c.name := c])
  }

  function MatchEvents(checkpoints: seq<Checkpoint>, events: seq<AuditEvent>, verified: map<string, Checkpoint>)
    : Result<map<string, Checkpoint>, DrainError>
  {
    if events == [] then Ok(verified)
    else match MatchEvent(checkpoints, events[0], verified)
      case Ok(next) => MatchEvents(checkpoints, events[1..], next)
      case Err(e) => Err(e)
  }

  predicate AnyBeyond(checkpoints: seq<Checkpoint>, through: nat) {
    exists c :: c in checkpoints && through < c.sequence
  }

  // ----- one iteration

  function QueryOf(config: Config, s: DrainState): PageQuery {
    PageQuery(config.organizationId, config.projectKey, s.afterSequence,
              s.throughSequence, s.headHash, s.previousEventHash)
  }

  function PageRequestOf(config: Config, s: DrainState): PageRequest {
    PageRequest(s.afterSequence, config.pageSize, s.throughSequence)
  }

  ghost function Step(config: Config, crypto: Crypto, env: Environment, s: DrainState): (r: StepResult)
    ensures r.Advanced? ==> r.state.pageNumber == s.pageNumber + 1
  {
    match env.source(s.pageNumber, PageRequestOf(config, s))
    case Rejected => Stopped(Failed(SourceRejected, s.log))
    case Malformed => Stopped(Failed(PageMalformed, s.log))
    case Delivered(page) =>
      if !PageSchema(page) then Stopped(Failed(PageMalformed, s.log))
      else match PageVerdict(QueryOf(config, s), page)
        case Some(e) => Stopped(Failed(Protocol(e), s.log))
        case None => Accept(config, crypto, env, Pin(s, page), page)
  }

  /** The first accepted page pins the head. */
  function Pin(s: DrainState, page: AuditPage): DrainState {
    s.(ticks := s.ticks + 1,
       throughSequence := if s.throughSequence.Some? then s.throughSequence else Some(page.throughSequence),
       headHash := if s.headHash.Some? then s.headHash else Some(page.integrity.headHash),
       log := s.log.(pages := s.log.pages + [page]))
  }

  ghost function Accept(config: Config, crypto: Crypto, env: Environment, s: DrainState, page: AuditPage)
    : (r: StepResult)
    requires s.throughSequence.Some? && s.headHash.Some?
    ensures r.Advanced? ==> r.state.pageNumber == s.pageNumber + 1
  {
    if AnyBeyond(config.checkpoints, s.throughSequence.value) then
      Stopped(Failed(CheckpointBeyondHead, s.log))
    else match MatchEvents(config.checkpoints, page.events, s.verified)
      case Err(e) => Stopped(Failed(e, s.log))
      case Ok(verified) =>
        match Post(config, crypto, env, s.(verified := verified), page)
        case Stopped(outcome) => Stopped(outcome)
        case Advanced(s') => Close(config, crypto, env, s', page)
  }

  function BatchOf(config: Config, crypto: Crypto, s: DrainState, page: AuditPage): RetentionBatch
    requires s.throughSequence.Some? && s.headHash.Some? && page.events != []
  {
    CreateBatch(crypto, config.sourceOrigin, config.organizationId, config.projectKey,
                Head(s.throughSequence.value, s.headHash.value), s.afterSequence,
                s.previousEventHash, s.previousReceiptDigest, page.events)
  }

  /** Posts the page's events, if any, as one batch and checks the acknowledgement. */
  function Post(config: Config, crypto: Crypto, env: Environment, s: DrainState, page: AuditPage)
    : (r: StepResult)
    requires s.throughSequence.Some? && s.headHash.Some?
    ensures r.Advanced? ==> r.state.pageNumber == s.pageNumber
    ensures r.Advanced? ==> r.state.throughSequence == s.throughSequence && r.state.headHash == s.headHash
  {
    if page.events == [] then Advanced(s)
    else
      var batch := BatchOf(config, crypto, s, page);
      if crypto.bodyBytes(batch) > MAX_PAGE_BYTES then Stopped(Failed(BatchTooLarge, s.log))
      else
        var log := s.log.(posted := s.log.posted + [batch]);
        match env.receiver(|s.log.posted|, batch)
        case Rejected => Stopped(Failed(ReceiverRejected, log))
        case Malformed => Stopped(Failed(Protocol(AckSchema), log))
        case Delivered(ack) =>
          match AckVerdict(crypto, ack, batch, config.keyId, config.publicKey,
                           config.minimumRetentionDays, env.clock(s.ticks + 1), s.lastAcknowledgement)
          case Some(e) => Stopped(Failed(Protocol(e), log))
          case None => Advanced(Retained(crypto, s, page, batch, ack))
  }

  function Retained(crypto: Crypto, s: DrainState, page: AuditPage, batch: RetentionBatch, ack: Acknowledgement)
    : DrainState
  {
    s.(ticks := s.ticks + 2,
       previousReceiptDigest := Some(crypto.receiptDigest(ack)),
       lastAcknowledgement := Some(ack),
       eventCount := s.eventCount + |page.events|,
       batchCount := s.batchCount + 1,
       log := s.log.(posted := s.log.posted + [batch], acks := s.log.acks + [ack]))
  }

  function ReceiptOf(config: Config, env: Environment, s: DrainState): DrainReceipt
    requires s.throughSequence.Some? && s.headHash.Some?
  {
    DrainReceipt(config.organizationId, config.projectKey, config.sourceOrigin, config.destinationOrigin,
                 env.clock(0), env.clock(s.ticks), StartSequence(config), s.throughSequence.value,
                 s.eventCount, s.batchCount, s.headHash.value,
                 s.previousReceiptDigest, s.lastAcknowledgement, Some(config.checkpoints))
  }

  /** Moves to the next page, or returns the receipt. */
  function Close(config: Config, crypto: Crypto, env: Environment, s: DrainState, page: AuditPage): StepResult
    requires s.throughSequence.Some? && s.headHash.Some?
  {
    var s' := s.(previousEventHash := LastHash(s.previousEventHash, page.events));
    if !page.hasMore then
      if |s'.verified| != |config.checkpoints| then Stopped(Failed(CheckpointsUnverified, s'.log))
      else if !ReceiptSchemaHolds(ReceiptOf(config, env, s')) then Stopped(Failed(FinalReceiptInvalid, s'.log))
      else Stopped(Finished(ReceiptOf(config, env, s'), s'.log))
    else if page.nextCursor <= s'.afterSequence then Stopped(Failed(CursorStalled, s'.log))
    else Advanced(s'.(afterSequence := page.nextCursor, pageNumber := s'.pageNumber + 1))
  }

  // ----- the whole run

  const EMPTY_LOG := Log([], [], [])

  function ConfigVerdict(config: Config): Option<DrainError> {
    if config.sourceOrigin == config.destinationOrigin then Some(SameOrigin)
    else if !(1 <= config.pageSize <= 500) then Some(PageSizeOutOfRange)
    else if !(1 <= config.minimumRetentionDays <= 36_500) then Some(RetentionDaysOutOfRange)
    else if !CheckpointSetSchema(config.checkpoints) then Some(CheckpointSetInvalid)
    else None
  }

  function StartState(config: Config, verified: map<string, Checkpoint>): DrainState {
    DrainState(0, 1, StartSequence(config), None, None, StartHash(config), StartDigest(config),
               StartAcknowledgement(config), 0, 0, verified, EMPTY_LOG)
  }

  ghost function RunFrom(config: Config, crypto: Crypto, env: Environment, s: DrainState): Outcome
    decreases MAX_PAGES - s.pageNumber
  {
    if s.pageNumber >= MAX_PAGES then Failed(PageBoundExceeded, s.log)
    else match Step(config, crypto, env, s)
      case Stopped(outcome) => outcome
      case Advanced(s') => RunFrom(config, crypto, env, s')
  }

  /** What a drain does in an environment, as a function. */
  ghost function Drain(config: Config, crypto: Crypto, env: Environment): Outcome {
    match ConfigVerdict(config)
    case Some(e) => Failed(e, EMPTY_LOG)
    case None =>
      match StartingCheckpoints(config.checkpoints, Head(StartSequence(config), StartHash(config)), map[])
      case Err(e) => Failed(e, EMPTY_LOG)
      case Ok(verified) => RunFrom(config, crypto, env, StartState(config, verified))
  }

  // ----- the source's loops

  method StartCheckpoints(checkpoints: seq<Checkpoint>, start: Head)
    returns (r: Result<map<string, Checkpoint>, DrainError>)
    ensures r == StartingCheckpoints(checkpoints, start, map[])
  {
    var verified := map[];
    for i := 0 to |checkpoints|
      invariant StartingCheckpoints(checkpoints, start, map[])
             == StartingCheckpoints(checkpoints[i..], start, verified)
    {
      var checkpoint := checkpoints[i];
      assert checkpoints[i..][1..] == checkpoints[i + 1..];
      if checkpoint.sequence < start.sequence {
        return Err(CheckpointPrecedesState);
      }
      if checkpoint.sequence == start.sequence {
        if checkpoint.hash != start.hash {
          return Err(CheckpointNotRetainedHead);
        }
        verified := verified[checkpoint.name := checkpoint];
      }
    }
    return Ok(verified);
  }

  method MatchCheckpoints(checkpoints: seq<Checkpoint>, events: seq<AuditEvent>, before: map<string, Checkpoint>)
    returns (r: Result<map<string, Checkpoint>, DrainError>)
    ensures r == MatchEvents(checkpoints, events, before)
  {
    var verified := before;
    for i := 0 to |events|
      invariant MatchEvents(checkpoints, events, before) == MatchEvents(checkpoints, events[i..], verified)
    {
      var event := events[i];
      assert events[i..][1..] == events[i + 1..];
      ghost var atEvent := verified;
      for j := 0 to |checkpoints|
        invariant MatchEvent(checkpoints, event, atEvent) == MatchEvent(checkpoints[j..], event, verified)
      {
        var checkpoint := checkpoints[j];
        assert checkpoints[j..][1..] == checkpoints[j + 1..];
        if event.sequence == checkpoint.sequence {
          if event.eventHash != checkpoint.hash {
            return Err(CheckpointHashMismatch);
          }
          verified := verified[checkpoint.name := checkpoint];
        }
      }
    }
    return Ok(verified);
  }

  /** Reads one page and validates it against the chain drained so far. */
  method ReceivePage(config: Config, ghost crypto: Crypto, env: Environment, s: DrainState)
    returns (r: Result<AuditPage, DrainError>)
    ensures r.Ok? ==> Step(config, crypto, env, s) == Accept(config, crypto, env, Pin(s, r.value), r.value)
    ensures r.Err? ==> Step(config, crypto, env, s) == Stopped(Failed(r.error, s.log))
  {
    var response := env.source(s.pageNumber, PageRequestOf(config, s));
    if response.Rejected? {
      return Err(SourceRejected);
    }
    if response.Malformed? || !PageSchema(response.value) {
      return Err(PageMalformed);
    }
    var validated := ValidateAuditPage(QueryOf(config, s), response.value);
    if validated.Err? {
      return Err(Protocol(validated.error));
    }
    return Ok(response.value);
  }

  /** Posts a page's events as one batch and verifies the receiver's answer. */
  method RetainPage(config: Config, crypto: Crypto, env: Environment, s: DrainState, page: AuditPage)
    returns (r: Result<(RetentionBatch, Acknowledgement), Outcome>)
    requires s.throughSequence.Some? && s.headHash.Some? && page.events != []
    ensures r.Err? ==> Post(config, crypto, env, s, page) == Stopped(r.error)
    ensures r.Ok? ==> Post(config, crypto, env, s, page) == Advanced(Retained(crypto, s, page, r.value.0, r.value.1))
  {
    var batch := BatchOf(config, crypto, s, page);
    if crypto.bodyBytes(batch) > MAX_PAGE_BYTES {
      return Err(Failed(BatchTooLarge, s.log));
    }
    var reply := env.receiver(|s.log.posted|, batch);
    var log := s.log.(posted := s.log.posted + [batch]);
    if reply.Rejected? {
      return Err(Failed(ReceiverRejected, log));
    }
    if reply.Malformed? {
      return Err(Failed(Protocol(AckSchema), log));
    }
    var refused := AckVerdict(crypto, reply.value, batch, config.keyId, config.publicKey,
                              config.minimumRetentionDays, env.clock(s.ticks + 1), s.lastAcknowledgement);
    if refused.Some? {
      return Err(Failed(Protocol(refused.value), log));
    }
    return Ok((batch, reply.value));
  }

  /** `drainAuditRetention` itself. */
  method DrainAuditRetention(config: Config, crypto: Crypto, env: Environment) returns (outcome: Outcome)
    ensures outcome == Drain(config, crypto, env)
  {
    var invalid := ConfigVerdict(config);
    if invalid.Some? {
      return Failed(invalid.value, EMPTY_LOG);
    }
    var starting := StartCheckpoints(config.checkpoints, Head(StartSequence(config), StartHash(config)));
    if starting.Err? {
      return Failed(starting.error, EMPTY_LOG);
    }
    outcome := DrainPages(config, crypto, env, starting.value);
  }

  /** One turn of the loop: read a page, check it, retain its events, then move on or finish. */
  method DrainPage(config: Config, crypto: Crypto, env: Environment, before: DrainState)
    returns (r: StepResult)
    ensures r == Step(config, crypto, env, before)
  {
    hide PageVerdict, AckVerdict, MatchEvents, CheckpointSetSchema, AnyBeyond;
    var received := ReceivePage(config, crypto, env, before);
    if received.Err? {
      return Stopped(Failed(received.error, before.log));
    }
    var page := received.value;
    var s := before;
    s := s.(ticks := s.ticks + 1, log := s.log.(pages := s.log.pages + [page]));
    if s.throughSequence.None? {
      s := s.(throughSequence := Some(page.throughSequence));
    }
    if s.headHash.None? {
      s := s.(headHash := Some(page.integrity.headHash));
    }
    assert s == Pin(before, page);
    if AnyBeyond(config.checkpoints, s.throughSequence.value) {
      return Stopped(Failed(CheckpointBeyondHead, s.log));
    }
    var matched := MatchCheckpoints(config.checkpoints, page.events, s.verified);
    if matched.Err? {
      return Stopped(Failed(matched.error, s.log));
    }
    s := s.(verified := matched.value);
    if page.events != [] {
      var retained := RetainPage(config, crypto, env, s, page);
      if retained.Err? {
        return Stopped(retained.error);
      }
      s := Retained(crypto, s, page, retained.value.0, retained.value.1);
    }
    assert Step(config, crypto, env, before) == Close(config, crypto, env, s, page);
    s := s.(previousEventHash := LastHash(s.previousEventHash, page.events));
    if !page.hasMore {
      if |s.verified| != |config.checkpoints| {
        return Stopped(Failed(CheckpointsUnverified, s.log));
      }
      var receipt := ReceiptOf(config, env, s);
      if !ReceiptSchemaHolds(receipt) {
        return Stopped(Failed(FinalReceiptInvalid, s.log));
      }
      return Stopped(Finished(receipt, s.log));
    }
    if page.nextCursor <= s.afterSequence {
      return Stopped(Failed(CursorStalled, s.log));
    }
    return Advanced(s.(afterSequence := page.nextCursor, pageNumber := s.pageNumber + 1));
  }

  method DrainPages(config: Config, crypto: Crypto, env: Environment, starting: map<string, Checkpoint>)
    returns (outcome: Outcome)
    ensures outcome == RunFrom(config, crypto, env, StartState(config, starting))
  {
    var state := StartState(config, starting);
    for pageNumber := 0 to MAX_PAGES
      invariant state.pageNumber == pageNumber
      invariant RunFrom(config, crypto, env, StartState(config, starting)) == RunFrom(config, crypto, env, state)
    {
      var step := DrainPage(config, crypto, env, state);
      if step.Stopped? {
        return step.outcome;
      }
      state := step.state;
    }
    return Failed(PageBoundExceeded, state.log);
  }
}
