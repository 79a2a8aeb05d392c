/** What every drain keeps, whatever the source, the receiver and the clock do: the posted batches
    are one hash-linked chain, the acknowledgements are one receipt chain, and a receipt tells the
    truth about both. */
module DrainSafety {
  import opened Wrappers
  import opened AuditProtocol
  import opened AuditDrain

  /** All posted events, in order. */
  ghost function EventsOf(posted: seq<RetentionBatch>): seq<AuditEvent> {
    if posted == [] then [] else EventsOf(posted[..|posted| - 1]) + posted[|posted| - 1].events
  }

  ghost function PageEvents(pages: seq<AuditPage>): seq<AuditEvent> {
    if pages == [] then [] else PageEvents(pages[..|pages| - 1]) + pages[|pages| - 1].events
  }

  /** The acknowledgement, and its digest, that the i-th batch must name as its predecessor. */
  ghost function AckBefore(config: Config, acks: seq<Acknowledgement>, i: nat): Option<Acknowledgement>
    requires i <= |acks|
  {
    if i == 0 then StartAcknowledgement(config) else Some(acks[i - 1])
  }

  ghost function DigestBefore(config: Config, crypto: Crypto, acks: seq<Acknowledgement>, i: nat): Option<string>
    requires i <= |acks|
  {
    if i == 0 then StartDigest(config) else Some(crypto.receiptDigest(acks[i - 1]))
  }

  /** What the id of a batch is taken over. */
  ghost function BatchIdentityOf(b: RetentionBatch): BatchIdentity
    requires b.events != []
  {
    BatchIdentity(b.organizationId, b.projectKey, b.checkpoint, b.range.afterSequence,
                  b.events[0].sequence, b.events[|b.events| - 1].sequence, b.previousReceiptDigest,
                  EventHashes(b.events))
  }

  ghost predicate Identified(crypto: Crypto, b: RetentionBatch)
    requires b.events != []
  {
    b.batchId == "audit_" + crypto.batchIdentity(BatchIdentityOf(b))
  }

  /** The i-th batch carries on where the earlier ones stopped and names the last acknowledgement. */
  ghost predicate BatchContinues(config: Config, crypto: Crypto, log: Log, i: nat)
    requires i < |log.posted| && i <= |log.acks|
  {
    var b := log.posted[i];
    var after := LastSequence(StartSequence(config), EventsOf(log.posted[..i]));
    var hash := LastHash(StartHash(config), EventsOf(log.posted[..i]));
    && b.events != []
    && Extends(after, hash, b.events)
    && InScope(config.organizationId, config.projectKey, b.events)
    && Within(b.checkpoint.sequence, b.events)
    && b.checkpoint == log.posted[0].checkpoint
    && b.organizationId == config.organizationId && b.projectKey == config.projectKey
    && b.sourceOrigin == config.sourceOrigin
    && b.range == Range(after, b.events[0].sequence, LastSequence(after, b.events), |b.events|,
                        hash, LastHash(hash, b.events))
    && |b.events| <= MAX_PAGE_EVENTS
    && b.previousReceiptDigest == DigestBefore(config, crypto, log.acks, i)
    && crypto.bodyBytes(b) <= MAX_PAGE_BYTES
    && Identified(crypto, b)
  }

  /** The i-th acknowledgement is signed, answers the i-th batch and advances the receiver. */
  ghost predicate AckAnswers(config: Config, crypto: Crypto, log: Log, i: nat)
    requires i < |log.posted| && i < |log.acks|
  {
    var ack := log.acks[i];
    && AckSchemaHolds(ack)
    && ack.keyId == config.keyId
    && crypto.verifies(config.publicKey, (ack.statement, ack.keyId), ack.signature)
    && AckMatchesBatch(ack.statement, log.posted[i], crypto.payloadDigest(log.posted[i]))
    && AckAdvances(AckBefore(config, log.acks, i), ack)
    && AckRetains(ack.statement, config.minimumRetentionDays)
  }

  /** The network log of a drain, finished or not. At most the last batch is unacknowledged. */
  ghost predicate SafeLog(config: Config, crypto: Crypto, log: Log) {
    && |log.acks| <= |log.posted| <= |log.acks| + 1
    && (forall i :: 0 <= i < |log.posted| ==> BatchContinues(config, crypto, log, i))
    && (forall i :: 0 <= i < |log.acks| ==> AckAnswers(config, crypto, log, i))
  }

  /** A checkpoint that is the retained head, or sits on a drained event with its hash. */
  ghost predicate Anchored(c: Checkpoint, start: Head, events: seq<AuditEvent>) {
    || (c.sequence == start.sequence && c.hash == start.hash)
    || exists e :: e in events && e.sequence == c.sequence && e.eventHash == c.hash
  }

  ghost predicate Reached(c: Checkpoint, start: Head, events: seq<AuditEvent>) {
    c.sequence == start.sequence || exists e :: e in events && e.sequence == c.sequence
  }

  /** `verified` holds exactly the checkpoints reached so far, each of them anchored. */
  ghost predicate Tracks(checkpoints: seq<Checkpoint>, start: Head, events: seq<AuditEvent>,
                         verified: map<string, Checkpoint>) {
    && (forall name :: name in verified ==>
          && verified[name] in checkpoints && verified[name].name == name
          && Anchored(verified[name], start, events))
    && (forall c :: c in checkpoints && Reached(c, start, events) ==> c.name in verified)
  }

  ghost function StartHead(config: Config): Head {
    Head(StartSequence(config), StartHash(config))
  }

  // ----- the invariant

  /** Everything but the cursor, which moves only when a page is closed. */
  ghost predicate Ledger(config: Config, crypto: Crypto, s: DrainState) {
    && SafeLog(config, crypto, s.log)
    && |s.log.acks| == |s.log.posted| == s.batchCount
    && s.eventCount == |EventsOf(s.log.posted)|
    && s.previousReceiptDigest == DigestBefore(config, crypto, s.log.acks, |s.log.acks|)
    && s.lastAcknowledgement == AckBefore(config, s.log.acks, |s.log.acks|)
    && (forall b :: b in s.log.posted ==>
          s.throughSequence == Some(b.checkpoint.sequence) && s.headHash == Some(b.checkpoint.hash))
  }

  ghost predicate PagesPinned(s: DrainState) {
    && (s.log.pages == [] ==> s.throughSequence == None && s.headHash == None)
    && (s.log.pages != [] ==> s.throughSequence.Some? && s.headHash.Some?)
    && (forall p :: p in s.log.pages ==>
          && s.throughSequence == Some(p.throughSequence)
          && s.headHash == Some(p.integrity.headHash)
          && |p.events| <= MAX_PAGE_EVENTS && p.throughSequence <= MAX_SAFE_INTEGER)
  }

  ghost predicate CheckpointsInRange(config: Config, s: DrainState) {
    && (forall c :: c in config.checkpoints ==> StartSequence(config) <= c.sequence)
    && (s.throughSequence.Some? ==>
          forall c :: c in config.checkpoints ==> c.sequence <= s.throughSequence.value)
  }

  ghost predicate Invariant(config: Config, crypto: Crypto, s: DrainState) {
    var events := EventsOf(s.log.posted);
    && Ledger(config, crypto, s)
    && PagesPinned(s)
    && CheckpointsInRange(config, s)
    && Tracks(config.checkpoints, StartHead(config), events, s.verified)
    && events == PageEvents(s.log.pages)
    && s.afterSequence == LastSequence(StartSequence(config), events)
    && s.previousEventHash == LastHash(StartHash(config), events)
    && |s.log.pages| == s.pageNumber == s.batchCount
    && (forall p :: p in s.log.pages ==> p.hasMore)
  }

  /** What a returned receipt says about the log it was returned with. */
  ghost predicate Truthful(config: Config, crypto: Crypto, receipt: DrainReceipt, log: Log) {
    var events := EventsOf(log.posted);
    && SafeLog(config, crypto, log)
    && |log.acks| == |log.posted|
    && events == PageEvents(log.pages)
    && ReceiptSchemaHolds(receipt)
    && ScopeOf(receipt) == ReceiptScopeOf(config.organizationId, config.projectKey,
                                          config.sourceOrigin, config.destinationOrigin)
    && receipt.fromSequence == StartSequence(config)
    && receipt.eventCount == |events|
    && receipt.batchCount == |log.posted|
    && receipt.headHash == LastHash(StartHash(config), events)
    && receipt.fromSequence <= receipt.throughSequence
    && Within(receipt.throughSequence, events)
    && receipt.lastDestinationReceiptDigest == DigestBefore(config, crypto, log.acks, |log.acks|)
    && receipt.lastDestinationAcknowledgement == AckBefore(config, log.acks, |log.acks|)
    && receipt.checkpoints == Some(config.checkpoints)
    && (forall c :: c in config.checkpoints ==>
          && receipt.fromSequence <= c.sequence <= receipt.throughSequence
          && Anchored(c, StartHead(config), events))
    && (forall b :: b in log.posted ==> b.checkpoint == Head(receipt.throughSequence, receipt.headHash))
    && 0 < |log.pages| <= |log.posted| + 1
    && LastPageIsFinal(log.pages, receipt.throughSequence)
  }

  /** Every page was pinned to the same head, and only the last claimed to be the end. */
  ghost predicate LastPageIsFinal(pages: seq<AuditPage>, through: nat) {
    forall i :: 0 <= i < |pages| ==>
      && pages[i].hasMore == (i < |pages| - 1)
      && pages[i].throughSequence == through
  }

  /** An error other than the two guards that never fire and the page bound. */
  predicate OrdinaryError(e: DrainError) {
    e != CursorStalled && e != FinalReceiptInvalid && e != PageBoundExceeded
  }

  /** What one turn of the loop may result in. */
  ghost predicate GoodStep(config: Config, crypto: Crypto, s: DrainState, r: StepResult) {
    match r
    case Advanced(s') =>
      && Invariant(config, crypto, s')
      && s'.throughSequence.Some?
      && s.afterSequence < s'.afterSequence <= s'.throughSequence.value
      && (s.throughSequence.Some? ==> s'.throughSequence == s.throughSequence)
    case Stopped(Failed(e, log)) =>
      SafeLog(config, crypto, log) && OrdinaryError(e)
    case Stopped(Finished(receipt, log)) => Truthful(config, crypto, receipt, log)
  }

  // ----- chains posted are chains of events

  lemma {:induction false} PostedExtend(config: Config, crypto: Crypto, log: Log)
    requires SafeLog(config, crypto, log)
    ensures Extends(StartSequence(config), StartHash(config), EventsOf(log.posted))
    ensures InScope(config.organizationId, config.projectKey, EventsOf(log.posted))
    decreases |log.posted|
  {
    if log.posted == [] {
    } else {
      var n := |log.posted| - 1;
      var shorter := log.(posted := log.posted[..n], acks := log.acks[..n]);
      SafeLogPrefix(config, crypto, log, n);
      PostedExtend(config, crypto, shorter);
      assert BatchContinues(config, crypto, log, n);
      ExtendsSplit(StartSequence(config), StartHash(config), EventsOf(log.posted[..n]), log.posted[n].events);
    }
  }

  lemma SafeLogPrefix(config: Config, crypto: Crypto, log: Log, n: nat)
    requires SafeLog(config, crypto, log) && n <= |log.acks|
    ensures SafeLog(config, crypto, log.(posted := log.posted[..n], acks := log.acks[..n]))
  {
    var shorter := log.(posted := log.posted[..n], acks := log.acks[..n]);
    forall i | 0 <= i < n ensures BatchContinues(config, crypto, shorter, i) {
      assert BatchContinues(config, crypto, log, i);
      assert log.posted[..n][..i] == log.posted[..i];
    }
    forall i | 0 <= i < n ensures AckAnswers(config, crypto, shorter, i) {
      assert AckAnswers(config, crypto, log, i);
    }
  }

  // ----- checkpoints

  lemma {:induction false} StartingCheckpointsTrack(
    checkpoints: seq<Checkpoint>, start: Head, verified: map<string, Checkpoint>)
    requires forall name :: name in verified ==>
      verified[name].name == name && verified[name].sequence == start.sequence && verified[name].hash == start.hash
    ensures var r := StartingCheckpoints(checkpoints, start, verified);
      r.Ok? ==>
        && (forall name :: name in r.value ==>
              && r.value[name].name == name
              && (r.value[name] in checkpoints || (name in verified && r.value[name] == verified[name]))
              && r.value[name].sequence == start.sequence && r.value[name].hash == start.hash)
        && (forall name :: name in verified ==> name in r.value)
        && (forall c :: c in checkpoints ==>
              start.sequence <= c.sequence && (c.sequence == start.sequence ==> c.name in r.value))
    ensures StartingCheckpoints(checkpoints, start, verified).Err? <==>
      exists c :: c in checkpoints &&
        (c.sequence < start.sequence || (c.sequence == start.sequence && c.hash != start.hash))
    decreases |checkpoints|
  {
    if checkpoints == [] {
    } else {
      var c := checkpoints[0];
      var next := if c.sequence == start.sequence then verified[c.name := c] else verified;
      if c.sequence >= start.sequence && (c.sequence == start.sequence ==> c.hash == start.hash) {
        StartingCheckpointsTrack(checkpoints[1..], start, next);
        assert forall d :: d in checkpoints <==> d == c || d in checkpoints[1..];
      }
    }
  }

  lemma {:induction false} MatchEventTracks(
    checkpoints: seq<Checkpoint>, event: AuditEvent, verified: map<string, Checkpoint>)
    ensures var r := MatchEvent(checkpoints, event, verified);
      r.Ok? ==>
        && (forall name :: name in r.value ==>
              || (name in verified && r.value[name] == verified[name])
              || (r.value[name] in checkpoints && r.value[name].name == name
                  && r.value[name].sequence == event.sequence && r.value[name].hash == event.eventHash))
        && (forall name :: name in verified ==> name in r.value)
        && (forall c :: c in checkpoints && c.sequence == event.sequence ==> c.name in r.value)
    ensures MatchEvent(checkpoints, event, verified).Err? <==>
      exists c :: c in checkpoints && c.sequence == event.sequence && c.hash != event.eventHash
    decreases |checkpoints|
  {
    if checkpoints == [] {
    } else {
      var c := checkpoints[0];
      if c.sequence == event.sequence {
        if c.hash == event.eventHash {
          MatchEventTracks(checkpoints[1..], event, verified[c.name := c]);
        }
      } else {
        MatchEventTracks(checkpoints[1..], event, verified);
      }
      assert forall d :: d in checkpoints <==> d == c || d in checkpoints[1..];
    }
  }

  lemma {:induction false} MatchEventsTrack(
    checkpoints: seq<Checkpoint>, start: Head, before: seq<AuditEvent>, events: seq<AuditEvent>,
    verified: map<string, Checkpoint>)
    requires Tracks(checkpoints, start, before, verified)
    ensures var r := MatchEvents(checkpoints, events, verified);
      r.Ok? ==> Tracks(checkpoints, start, before + events, r.value)
    ensures MatchEvents(checkpoints, events, verified).Err? <==>
      exists e, c :: e in events && c in checkpoints && c.sequence == e.sequence && c.hash != e.eventHash
    decreases |events|
  {
    if events == [] {
      assert before + events == before;
    } else {
      var e := events[0];
      MatchEventTracks(checkpoints, e, verified);
      assert forall d :: d in events <==> d == e || d in events[1..];
      match MatchEvent(checkpoints, e, verified)
      case Err(_) =>
      case Ok(next) =>
        TracksOneMore(checkpoints, start, before, e, verified, next);
        MatchEventsTrack(checkpoints, start, before + [e], events[1..], next);
        assert before + [e] + events[1..] == before + events;
    }
  }

  lemma TracksOneMore(checkpoints: seq<Checkpoint>, start: Head, before: seq<AuditEvent>, e: AuditEvent,
                      verified: map<string, Checkpoint>, next: map<string, Checkpoint>)
    requires Tracks(checkpoints, start, before, verified)
    requires MatchEvent(checkpoints, e, verified) == Ok(next)
    ensures Tracks(checkpoints, start, before + [e], next)
  {
    MatchEventTracks(checkpoints, e, verified);
    var events := before + [e];
    assert e in events;
    assert forall d :: d in before ==> d in events;
    forall name | name in next
      ensures next[name] in checkpoints && next[name].name == name && Anchored(next[name], start, events)
    {
      if name in verified && next[name] == verified[name] {
        assert Anchored(verified[name], start, before);
      }
    }
  }

  // ----- one step

  lemma StartIsInvariant(config: Config, crypto: Crypto, verified: map<string, Checkpoint>)
    requires StartingCheckpoints(config.checkpoints, StartHead(config), map[]) == Ok(verified)
    ensures Invariant(config, crypto, StartState(config, verified))
  {
    StartingCheckpointsTrack(config.checkpoints, StartHead(config), map[]);
  }

  lemma PostKeepsLedger(config: Config, crypto: Crypto, env: Environment, s: DrainState, page: AuditPage)
    requires Ledger(config, crypto, s) && s.throughSequence.Some? && s.headHash.Some?
    requires s.afterSequence == LastSequence(StartSequence(config), EventsOf(s.log.posted))
    requires s.previousEventHash == LastHash(StartHash(config), EventsOf(s.log.posted))
    requires PageContinues(QueryOf(config, s), page) && |page.events| <= MAX_PAGE_EVENTS
    requires page.throughSequence == s.throughSequence.value
    ensures var r := Post(config, crypto, env, s, page);
      && (r.Stopped? ==> r.outcome.Failed? && SafeLog(config, crypto, r.outcome.log))
      && (r.Advanced? ==>
            && Ledger(config, crypto, r.state)
            && EventsOf(r.state.log.posted) == EventsOf(s.log.posted) + page.events
            && r.state.log.pages == s.log.pages
            && r.state.batchCount == s.batchCount + (if page.events == [] then 0 else 1)
            && r.state.afterSequence == s.afterSequence && r.state.previousEventHash == s.previousEventHash
            && r.state.verified == s.verified)
  {
    if page.events != [] {
      var batch := BatchOf(config, crypto, s, page);
      if crypto.bodyBytes(batch) <= MAX_PAGE_BYTES {
        PostedBatchContinues(config, crypto, s, page);
        var r := Post(config, crypto, env, s, page);
        if r.Advanced? {
          var ack := env.receiver(|s.log.posted|, batch).value;
          var log := s.log.(posted := s.log.posted + [batch], acks := s.log.acks + [ack]);
          assert r.state == Retained(crypto, s, page, batch, ack);
          AckedBatchSafe(config, crypto, env, s, page, ack);
        }
      }
    }
  }

  lemma PostedBatchContinues(config: Config, crypto: Crypto, s: DrainState, page: AuditPage)
    requires Ledger(config, crypto, s) && s.throughSequence.Some? && s.headHash.Some?
    requires s.afterSequence == LastSequence(StartSequence(config), EventsOf(s.log.posted))
    requires s.previousEventHash == LastHash(StartHash(config), EventsOf(s.log.posted))
    requires PageContinues(QueryOf(config, s), page) && 0 < |page.events| <= MAX_PAGE_EVENTS
    requires page.throughSequence == s.throughSequence.value
    requires crypto.bodyBytes(BatchOf(config, crypto, s, page)) <= MAX_PAGE_BYTES
    ensures SafeLog(config, crypto, s.log.(posted := s.log.posted + [BatchOf(config, crypto, s, page)]))
  {
    var n := |s.log.posted|;
    var batch := BatchOf(config, crypto, s, page);
    var log := s.log.(posted := s.log.posted + [batch]);
    assert log.posted[..n] == s.log.posted;
    assert log.posted[0].checkpoint == batch.checkpoint by {
      if n > 0 { assert s.log.posted[0] in s.log.posted; }
    }
    assert BatchContinues(config, crypto, log, n);
    forall i | 0 <= i < n ensures BatchContinues(config, crypto, log, i) {
      assert BatchContinues(config, crypto, s.log, i);
      assert log.posted[..i] == s.log.posted[..i];
    }
    forall i | 0 <= i < n ensures AckAnswers(config, crypto, log, i) {
      assert AckAnswers(config, crypto, s.log, i);
    }
  }

  lemma AckedBatchSafe(config: Config, crypto: Crypto, env: Environment, s: DrainState, page: AuditPage,
                       ack: Acknowledgement)
    requires Ledger(config, crypto, s) && s.throughSequence.Some? && s.headHash.Some?
    requires page.events != []
    requires var batch := BatchOf(config, crypto, s, page);
      && SafeLog(config, crypto, s.log.(posted := s.log.posted + [batch]))
      && AckVerdict(crypto, ack, batch, config.keyId, config.publicKey, config.minimumRetentionDays,
                    env.clock(s.ticks + 1), s.lastAcknowledgement).None?
    ensures Ledger(config, crypto, Retained(crypto, s, page, BatchOf(config, crypto, s, page), ack))
    ensures EventsOf(s.log.posted + [BatchOf(config, crypto, s, page)]) == EventsOf(s.log.posted) + page.events
  {
    hide Extends, AckMatchesBatch, AckSchemaHolds, AckRetains, AckAdvances, InScope, Within;
    var n := |s.log.posted|;
    var batch := BatchOf(config, crypto, s, page);
    var half := s.log.(posted := s.log.posted + [batch]);
    var log := half.(acks := s.log.acks + [ack]);
    assert half.posted[..n] == s.log.posted;
    forall i | 0 <= i <= n ensures BatchContinues(config, crypto, log, i) {
      assert BatchContinues(config, crypto, half, i);
    }
    forall i | 0 <= i < n ensures AckAnswers(config, crypto, log, i) {
      assert AckAnswers(config, crypto, half, i);
    }
    assert AckAnswers(config, crypto, log, n);
  }

  /** One turn of the loop keeps the invariant, stops with a safe log, or returns the truth. It never
      stops because the cursor stalled, nor because its own receipt is malformed. */
  lemma StepKeepsInvariant(config: Config, crypto: Crypto, env: Environment, s: DrainState)
    requires Invariant(config, crypto, s)
    requires CheckpointSetSchema(config.checkpoints) && s.pageNumber < MAX_PAGES
    requires config.previous.Some? ==> ReceiptSchemaHolds(config.previous.value)
    ensures GoodStep(config, crypto, s, Step(config, crypto, env, s))
  {
    match env.source(s.pageNumber, PageRequestOf(config, s))
    case Rejected =>
    case Malformed =>
    case Delivered(page) =>
      if PageSchema(page) && PageVerdict(QueryOf(config, s), page).None? {
        AcceptKeepsInvariant(config, crypto, env, s, page);
      }
  }

  lemma AcceptKeepsInvariant(config: Config, crypto: Crypto, env: Environment, s: DrainState, page: AuditPage)
    requires Invariant(config, crypto, s)
    requires CheckpointSetSchema(config.checkpoints) && s.pageNumber < MAX_PAGES
    requires config.previous.Some? ==> ReceiptSchemaHolds(config.previous.value)
    requires PageSchema(page) && PageVerdict(QueryOf(config, s), page).None?
    ensures GoodStep(config, crypto, s, Accept(config, crypto, env, Pin(s, page), page))
  {
    var pinned := Pin(s, page);
    PinKeepsLedger(config, crypto, s, page);
    if !AnyBeyond(config.checkpoints, pinned.throughSequence.value) {
      match MatchEvents(config.checkpoints, page.events, pinned.verified)
      case Err(_) => MatchErrors(config.checkpoints, page.events, pinned.verified);
      case Ok(verified) =>
        var tracked := pinned.(verified := verified);
        PostIsReadyToClose(config, crypto, env, s, page, verified);
        match Post(config, crypto, env, tracked, page)
        case Stopped(_) =>
        case Advanced(posted) => CloseKeepsInvariant(config, crypto, env, s, posted, page);
    }
  }

  lemma {:induction false} MatchErrors(
    checkpoints: seq<Checkpoint>, events: seq<AuditEvent>, verified: map<string, Checkpoint>)
    ensures var r := MatchEvents(checkpoints, events, verified); r.Err? ==> r.error == CheckpointHashMismatch
    decreases |events|
  {
    if events == [] {
    } else {
      MatchError(checkpoints, events[0], verified);
      match MatchEvent(checkpoints, events[0], verified)
      case Err(_) =>
      case Ok(next) => MatchErrors(checkpoints, events[1..], next);
    }
  }

  lemma {:induction false} MatchError(
    checkpoints: seq<Checkpoint>, event: AuditEvent, verified: map<string, Checkpoint>)
    ensures var r := MatchEvent(checkpoints, event, verified); r.Err? ==> r.error == CheckpointHashMismatch
    decreases |checkpoints|
  {
    if checkpoints == [] {
    } else {
      var c := checkpoints[0];
      MatchError(checkpoints[1..], event, verified);
      MatchError(checkpoints[1..], event, verified[c.name := c]);
    }
  }

  lemma PostIsReadyToClose(config: Config, crypto: Crypto, env: Environment, s: DrainState, page: AuditPage,
                           verified: map<string, Checkpoint>)
    requires Invariant(config, crypto, s) && s.pageNumber < MAX_PAGES
    requires PageSchema(page) && PageVerdict(QueryOf(config, s), page).None?
    requires !AnyBeyond(config.checkpoints, page.throughSequence)
    requires MatchEvents(config.checkpoints, page.events, s.verified) == Ok(verified)
    requires Ledger(config, crypto, Pin(s, page)) && PagesPinned(Pin(s, page))
    requires Pin(s, page).throughSequence == Some(page.throughSequence)
    requires Pin(s, page).headHash == Some(page.integrity.headHash)
    ensures match Post(config, crypto, env, Pin(s, page).(verified := verified), page)
      case Stopped(outcome) => outcome.Failed? && SafeLog(config, crypto, outcome.log)
        && OrdinaryError(outcome.error)
      case Advanced(posted) => ReadyToClose(config, crypto, s, posted, page)
  {
    hide SafeLog, Extends, Tracks, MatchEvents;
    MatchEventsTrack(config.checkpoints, StartHead(config), EventsOf(s.log.posted), page.events, s.verified);
    PostKeepsLedger(config, crypto, env, Pin(s, page).(verified := verified), page);
  }

  lemma PinKeepsLedger(config: Config, crypto: Crypto, s: DrainState, page: AuditPage)
    requires Invariant(config, crypto, s)
    requires PageSchema(page) && PageVerdict(QueryOf(config, s), page).None?
    ensures Ledger(config, crypto, Pin(s, page)) && PagesPinned(Pin(s, page))
    ensures Pin(s, page).throughSequence == Some(page.throughSequence)
    ensures Pin(s, page).headHash == Some(page.integrity.headHash)
  {
    var pinned := Pin(s, page);
    assert SafeLog(config, crypto, pinned.log) by {
      forall i | 0 <= i < |s.log.posted| ensures BatchContinues(config, crypto, pinned.log, i) {
        assert BatchContinues(config, crypto, s.log, i);
      }
      forall i | 0 <= i < |s.log.acks| ensures AckAnswers(config, crypto, pinned.log, i) {
        assert AckAnswers(config, crypto, s.log, i);
      }
    }
  }

  /** `posted` is the state `s` is in once its new page has been pinned, matched and posted. */
  ghost predicate ReadyToClose(config: Config, crypto: Crypto, s: DrainState, posted: DrainState, page: AuditPage) {
    && Invariant(config, crypto, s)
    && PageSchema(page) && PageVerdict(QueryOf(config, s), page).None?
    && Ledger(config, crypto, posted) && PagesPinned(posted)
    && posted.log.pages == s.log.pages + [page]
    && posted.throughSequence == Some(page.throughSequence)
    && posted.headHash == Some(page.integrity.headHash)
    && !AnyBeyond(config.checkpoints, page.throughSequence)
    && EventsOf(posted.log.posted) == EventsOf(s.log.posted) + page.events
    && Tracks(config.checkpoints, StartHead(config), EventsOf(posted.log.posted), posted.verified)
    && posted.afterSequence == s.afterSequence && posted.previousEventHash == s.previousEventHash
    && posted.pageNumber == s.pageNumber < MAX_PAGES
    && posted.batchCount == s.batchCount + (if page.events == [] then 0 else 1)
  }

  lemma ChainAtClose(config: Config, crypto: Crypto, s: DrainState, posted: DrainState, page: AuditPage)
    requires ReadyToClose(config, crypto, s, posted, page)
    ensures var events := EventsOf(posted.log.posted);
      && LastSequence(s.afterSequence, page.events) == LastSequence(StartSequence(config), events)
      && LastHash(s.previousEventHash, page.events) == LastHash(StartHash(config), events)
      && StartSequence(config) + |events| <= LastSequence(StartSequence(config), events)
      && Within(page.throughSequence, events)
      && (page.events != [] ==> s.afterSequence < LastSequence(s.afterSequence, page.events) <= page.throughSequence)
      && (events != [] ==> LastSequence(StartSequence(config), events) <= page.throughSequence)
  {
    var events := EventsOf(posted.log.posted);
    PostedExtend(config, crypto, posted.log);
    ChainIncreases(StartSequence(config), StartHash(config), events);
    ExtendsSplit(StartSequence(config), StartHash(config), EventsOf(s.log.posted), page.events);
    ChainIncreases(s.afterSequence, s.previousEventHash, page.events);
    if page.events != [] {
      assert page.events[|page.events| - 1] in page.events;
    } else if s.log.posted != [] {
      var last := |s.log.posted| - 1;
      assert BatchContinues(config, crypto, s.log, last);
      assert posted.log.posted != [];
      assert BatchContinues(config, crypto, posted.log, |posted.log.posted| - 1);
      assert posted.log.posted[|posted.log.posted| - 1] in posted.log.posted;
    }
    assert events != [] ==> LastSequence(StartSequence(config), events) <= page.throughSequence;
  }

  lemma CloseKeepsInvariant(config: Config, crypto: Crypto, env: Environment, s: DrainState,
                            posted: DrainState, page: AuditPage)
    requires ReadyToClose(config, crypto, s, posted, page)
    requires CheckpointSetSchema(config.checkpoints)
    requires config.previous.Some? ==> ReceiptSchemaHolds(config.previous.value)
    ensures GoodStep(config, crypto, s, Close(config, crypto, env, posted, page))
  {
    ChainAtClose(config, crypto, s, posted, page);
    var s' := posted.(previousEventHash := LastHash(posted.previousEventHash, page.events));
    if page.hasMore {
      CloseAdvances(config, crypto, s, posted, page);
    } else {
      assert config.checkpoints[0] in config.checkpoints;
      FinalReceiptHolds(config, crypto, env, s', page);
      if |s'.verified| == |config.checkpoints| {
        CloseFinishes(config, crypto, env, s, posted, page);
      }
    }
  }

  lemma CloseAdvances(config: Config, crypto: Crypto, s: DrainState, posted: DrainState, page: AuditPage)
    requires ReadyToClose(config, crypto, s, posted, page) && page.hasMore
    ensures page.nextCursor > posted.afterSequence
    ensures Invariant(config, crypto, posted.(
      previousEventHash := LastHash(posted.previousEventHash, page.events),
      afterSequence := page.nextCursor, pageNumber := posted.pageNumber + 1))
  {
    hide SafeLog, Extends, Tracks, EventsOf;
    ChainAtClose(config, crypto, s, posted, page);
    assert posted.log.pages[..|s.log.pages|] == s.log.pages;
  }

  lemma PageEventsAppend(pages: seq<AuditPage>, page: AuditPage)
    ensures PageEvents(pages + [page]) == PageEvents(pages) + page.events
  {
    assert (pages + [page])[..|pages|] == pages;
  }

  lemma CloseFinishes(config: Config, crypto: Crypto, env: Environment, s: DrainState,
                      posted: DrainState, page: AuditPage)
    requires ReadyToClose(config, crypto, s, posted, page) && !page.hasMore
    requires CheckpointSetSchema(config.checkpoints) && |posted.verified| == |config.checkpoints|
    requires var s' := posted.(previousEventHash := LastHash(posted.previousEventHash, page.events));
      ReceiptSchemaHolds(ReceiptOf(config, env, s'))
    ensures var s' := posted.(previousEventHash := LastHash(posted.previousEventHash, page.events));
      Truthful(config, crypto, ReceiptOf(config, env, s'), s'.log)
  {
    hide SafeLog, Extends, Anchored, ReceiptSchemaHolds, Tracks, EventsOf, PageEvents, InScope;
    PageEventsAppend(s.log.pages, page);
    var events := EventsOf(posted.log.posted);
    ChainAtClose(config, crypto, s, posted, page);
    AllVerified(config.checkpoints, StartHead(config), events, posted.verified);
    assert posted.log.pages[..|s.log.pages|] == s.log.pages;
    assert LastPageIsFinal(posted.log.pages, page.throughSequence);
    assert config.checkpoints[0] in config.checkpoints;
  }

  lemma FinalReceiptHolds(config: Config, crypto: Crypto, env: Environment, s: DrainState, page: AuditPage)
    requires CheckpointSetSchema(config.checkpoints)
    requires config.previous.Some? ==> ReceiptSchemaHolds(config.previous.value)
    requires Ledger(config, crypto, s) && s.throughSequence.Some? && s.headHash.Some?
    requires s.throughSequence.value <= MAX_SAFE_INTEGER
    requires StartSequence(config) + |EventsOf(s.log.posted)| <= MAX_SAFE_INTEGER
    requires s.batchCount <= MAX_PAGES
    ensures ReceiptSchemaHolds(ReceiptOf(config, env, s))
  {
    if s.log.acks != [] {
      assert AckAnswers(config, crypto, s.log, |s.log.acks| - 1);
    }
  }

  /** As many verified names as checkpoints, with distinct names, means every one is verified. */
  lemma AllVerified(checkpoints: seq<Checkpoint>, start: Head, events: seq<AuditEvent>,
                    verified: map<string, Checkpoint>)
    requires DistinctNames(checkpoints)
    requires Tracks(checkpoints, start, events, verified)
    requires |verified| == |checkpoints|
    ensures forall c :: c in checkpoints ==> Anchored(c, start, events)
  {
    var names := set c | c in checkpoints :: c.name;
    NamesCounted(checkpoints);
    assert verified.Keys <= names;
    SubsetOfSameSize(verified.Keys, names);
    forall c | c in checkpoints ensures Anchored(c, start, events) {
      assert c.name in names;
      var d := verified[c.name];
      var i :| 0 <= i < |checkpoints| && checkpoints[i] == c;
      var j :| 0 <= j < |checkpoints| && checkpoints[j] == d;
      assert i == j;
    }
  }

  lemma {:induction false} NamesCounted(checkpoints: seq<Checkpoint>)
    requires DistinctNames(checkpoints)
    ensures |set c | c in checkpoints :: c.name| == |checkpoints|
  {
    if checkpoints == [] {
    } else {
      var n := |checkpoints| - 1;
      var last := checkpoints[n];
      NamesCounted(checkpoints[..n]);
      var before := set c | c in checkpoints[..n] :: c.name;
      assert last.name !in before;
      assert (set c | c in checkpoints :: c.name) == before + {last.name} by {
        forall name | name in before + {last.name} ensures name in (set c | c in checkpoints :: c.name) {
          if name == last.name { assert last in checkpoints; }
        }
      }
    }
  }

  lemma SubsetOfSameSize(a: set<string>, b: set<string>)
    requires a <= b && |a| == |b|
    ensures a == b
  {
    assert b == a + (b - a);
    assert |b - a| == 0;
  }

  // ----- every run

  lemma {:induction false} RunKeepsInvariant(config: Config, crypto: Crypto, env: Environment, s: DrainState)
    requires Invariant(config, crypto, s) && s.pageNumber <= MAX_PAGES
    requires CheckpointSetSchema(config.checkpoints)
    requires config.previous.Some? ==> ReceiptSchemaHolds(config.previous.value)
    ensures match RunFrom(config, crypto, env, s)
      case Failed(e, log) =>
        && SafeLog(config, crypto, log)
        && (OrdinaryError(e) || (e == PageBoundExceeded && |log.acks| == MAX_PAGES))
      case Finished(receipt, log) => Truthful(config, crypto, receipt, log)
    decreases MAX_PAGES - s.pageNumber
  {
    if s.pageNumber < MAX_PAGES {
      StepKeepsInvariant(config, crypto, env, s);
      match Step(config, crypto, env, s)
      case Stopped(_) =>
      case Advanced(s') => RunKeepsInvariant(config, crypto, env, s');
    }
  }

  lemma EmptyLogIsSafe(config: Config, crypto: Crypto)
    ensures SafeLog(config, crypto, EMPTY_LOG)
  {}

  /** Safety of every drain, finished or failed: everything posted is one scoped, strictly
      increasing, hash-linked chain from the retained head, each batch naming the acknowledgement
      before it; a receipt is truthful; the stalled-cursor guard never fires; and the page bound is
      only hit after that many acknowledged batches. */
  lemma EveryDrainIsSafe(config: Config, crypto: Crypto, env: Environment)
    requires config.previous.Some? ==> ReceiptSchemaHolds(config.previous.value)
    ensures var outcome := Drain(config, crypto, env);
      && SafeLog(config, crypto, outcome.log)
      && Extends(StartSequence(config), StartHash(config), EventsOf(outcome.log.posted))
      && InScope(config.organizationId, config.projectKey, EventsOf(outcome.log.posted))
      && (outcome.Finished? ==> Truthful(config, crypto, outcome.receipt, outcome.log))
      && (outcome.Failed? ==> outcome.error != CursorStalled && outcome.error != FinalReceiptInvalid)
      && (outcome == Failed(PageBoundExceeded, outcome.log) ==> |outcome.log.acks| == MAX_PAGES)
  {
    hide RunFrom, SafeLog, Truthful, Extends, Invariant, StartingCheckpoints, ReceiptSchemaHolds;
    EmptyLogIsSafe(config, crypto);
    var outcome := Drain(config, crypto, env);
    if ConfigVerdict(config).None? {
      match StartingCheckpoints(config.checkpoints, StartHead(config), map[])
      case Err(e) => StartErrors(config.checkpoints, StartHead(config), map[]);
      case Ok(verified) =>
        StartIsInvariant(config, crypto, verified);
        RunKeepsInvariant(config, crypto, env, StartState(config, verified));
    }
    PostedExtend(config, crypto, outcome.log);
  }

  lemma {:induction false} StartErrors(checkpoints: seq<Checkpoint>, start: Head, verified: map<string, Checkpoint>)
    ensures var r := StartingCheckpoints(checkpoints, start, verified);
      r.Err? ==> r.error == CheckpointPrecedesState || r.error == CheckpointNotRetainedHead
    decreases |checkpoints|
  {
    if checkpoints == [] {
    } else {
      var c := checkpoints[0];
      StartErrors(checkpoints[1..], start, if c.sequence == start.sequence then verified[c.name := c] else verified);
    }
  }
}
