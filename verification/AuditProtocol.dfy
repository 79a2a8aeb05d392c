/** Pages, batches, acknowledgements and drain receipts of the audit-retention protocol
    (scripts/audit-retention-protocol.ts), and the checks made on each of them.

    Times are integer milliseconds. Schema checks keep the bounds the theorems need: safe
    integers, at most 500 events a page, seven distinct named checkpoints. */
module AuditProtocol {
  import opened Wrappers

  const MAX_SAFE_INTEGER: nat := 9007199254740991
  const MAX_PAGE_EVENTS: nat := 500
  const CLOCK_SKEW: nat := 5 * 60_000
  const DAY: nat := 24 * 60 * 60_000

  /** The head hash of a chain with no event. */
  const GENESIS_HASH: string := Repeat('0', 64)

  function Repeat(c: char, n: nat): string {
    if n == 0 then "" else Repeat(c, n - 1) + [c]
  }

  /** `body` stands for the schema fields the protocol only carries along. */
  datatype AuditEvent = AuditEvent(
    sequence: nat, organizationId: string, projectKey: string, body: string,
    previousHash: string, eventHash: string)

  datatype Integrity = Integrity(
    eventsChecked: nat, headSequence: nat, currentHeadSequence: nat, headHash: string)

  datatype AuditPage = AuditPage(
    organizationId: string, projectKey: string, afterSequence: nat, throughSequence: nat,
    nextCursor: nat, hasMore: bool, integrity: Integrity, events: seq<AuditEvent>)

  datatype Head = Head(sequence: nat, hash: string)

  datatype Range = Range(
    afterSequence: nat, firstSequence: nat, lastSequence: nat, eventCount: nat,
    previousEventHash: string, lastEventHash: string)

  datatype RetentionBatch = RetentionBatch(
    batchId: string, sourceOrigin: string, organizationId: string, projectKey: string,
    checkpoint: Head, range: Range, previousReceiptDigest: Option<string>,
    events: seq<AuditEvent>)

  datatype Statement = Statement(
    receiverId: string, receiptId: string, receiptSequence: nat,
    organizationId: string, projectKey: string, batchId: string, payloadDigest: string,
    previousReceiptDigest: Option<string>, firstSequence: nat, lastSequence: nat,
    eventCount: nat, lastEventHash: string, retainedAt: int, immutableUntil: int)

  datatype Acknowledgement = Acknowledgement(
    statement: Statement, keyId: string, signature: string)

  datatype Checkpoint = Checkpoint(name: string, sequence: nat, hash: string)

  /** `checkpoints` is `None` in the legacy receipts that carried none. */
  datatype DrainReceipt = DrainReceipt(
    organizationId: string, projectKey: string, sourceOrigin: string, destinationOrigin: string,
    startedAt: int, completedAt: int, fromSequence: nat, throughSequence: nat,
    eventCount: nat, batchCount: nat, headHash: string,
    lastDestinationReceiptDigest: Option<string>,
    lastDestinationAcknowledgement: Option<Acknowledgement>,
    checkpoints: Option<seq<Checkpoint>>)

  /** What the batch identity digest is taken over. */
  datatype BatchIdentity = BatchIdentity(
    organizationId: string, projectKey: string, checkpoint: Head, afterSequence: nat,
    firstSequence: nat, lastSequence: nat, previousReceiptDigest: Option<string>,
    eventHashes: seq<string>)

  /** SHA-256 digests of canonical JSON, its byte length, and Ed25519 verification, all left
      uninterpreted: a theorem holds for every choice of them. `verifies` takes the public key,
      the signed part of an acknowledgement and the signature. */
  datatype Crypto = Crypto(
    batchIdentity: BatchIdentity -> string,
    payloadDigest: RetentionBatch -> string,
    bodyBytes: RetentionBatch -> nat,
    receiptDigest: Acknowledgement -> string,
    verifies: (string, (Statement, string), string) -> bool)

  datatype ProtocolError =
    | CheckpointMismatch | BrokenSequence | NoBoundedProgress | FinalHashMismatch
    | AckSchema | AckUnexpectedKey | AckDoesNotMatchBatch | AckDidNotAdvance
    | AckSignatureInvalid | AckOutsideClockSkew | AckRetentionTooShort
    | ReceiptSchema | ReceiptScope | ReceiptSignatureInvalid | ReceiptNotBound
    | ReceiptExpired | ReceiptMissingAck

  // ----- chains of events

  /** The sequence and hash a chain stands at after `events`, when it started at the given ones. */
  function LastSequence(start: nat, events: seq<AuditEvent>): nat {
    if events == [] then start else events[|events| - 1].sequence
  }

  function LastHash(start: string, events: seq<AuditEvent>): string {
    if events == [] then start else events[|events| - 1].eventHash
  }

  /** `events` continue, in strictly increasing sequence and link by link, a chain that stands at
      sequence `start` with hash `hash`. */
  ghost predicate Extends(start: nat, hash: string, events: seq<AuditEvent>) {
    events == [] ||
    var before, last := events[..|events| - 1], events[|events| - 1];
    && Extends(start, hash, before)
    && LastSequence(start, before) < last.sequence
    && last.previousHash == LastHash(hash, before)
  }

  ghost predicate InScope(organizationId: string, projectKey: string, events: seq<AuditEvent>) {
    forall e :: e in events ==> e.organizationId == organizationId && e.projectKey == projectKey
  }

  ghost predicate Within(bound: nat, events: seq<AuditEvent>) {
    forall e :: e in events ==> e.sequence <= bound
  }

  lemma {:induction false} ExtendsSplit(
    start: nat, hash: string, first: seq<AuditEvent>, second: seq<AuditEvent>)
    ensures Extends(start, hash, first + second) <==>
            Extends(start, hash, first) && Extends(LastSequence(start, first), LastHash(hash, first), second)
    ensures LastSequence(start, first + second) == LastSequence(LastSequence(start, first), second)
    ensures LastHash(hash, first + second) == LastHash(LastHash(hash, first), second)
    decreases |second|
  {
    if second == [] {
      assert first + second == first;
    } else {
      var n := |second| - 1;
      ExtendsSplit(start, hash, first, second[..n]);
      assert (first + second)[..|first + second| - 1] == first + second[..n];
    }
  }

  /** A chain never repeats or reverses a sequence, and stays above its start. */
  lemma {:induction false} ChainIncreases(start: nat, hash: string, events: seq<AuditEvent>)
    requires Extends(start, hash, events)
    ensures forall i, j :: 0 <= i < j < |events| ==> events[i].sequence < events[j].sequence
    ensures forall i :: 0 <= i < |events| ==> start < events[i].sequence <= LastSequence(start, events)
    ensures LastSequence(start, events) >= start + |events|
  {
    if |events| == 0 {
    } else {
      var n := |events| - 1;
      ChainIncreases(start, hash, events[..n]);
      forall i, j | 0 <= i < j < |events| ensures events[i].sequence < events[j].sequence {
        assert events[..n][i] == events[i];
        if j < n {
          assert events[..n][j] == events[j];
        }
      }
      forall i | 0 <= i < |events| ensures start < events[i].sequence <= LastSequence(start, events) {
        if i < n {
          assert events[..n][i] == events[i];
        }
      }
    }
  }

  // ----- page validation

  datatype PageQuery = PageQuery(
    organizationId: string, projectKey: string, afterSequence: nat,
    throughSequence: Option<nat>, headHash: Option<string>, previousEventHash: string)

  predicate PageSchema(page: AuditPage) {
    && |page.events| <= MAX_PAGE_EVENTS
    && page.afterSequence <= MAX_SAFE_INTEGER
    && page.throughSequence <= MAX_SAFE_INTEGER
    && page.nextCursor <= MAX_SAFE_INTEGER
    && page.integrity.eventsChecked <= MAX_SAFE_INTEGER
    && page.integrity.headSequence <= MAX_SAFE_INTEGER
    && page.integrity.currentHeadSequence <= MAX_SAFE_INTEGER
    && forall e :: e in page.events ==> e.sequence <= MAX_SAFE_INTEGER
  }

  predicate HeaderMatches(query: PageQuery, page: AuditPage) {
    && page.organizationId == query.organizationId
    && page.projectKey == query.projectKey
    && page.afterSequence == query.afterSequence
    && page.integrity.headSequence == page.throughSequence
    && page.throughSequence <= page.integrity.currentHeadSequence
    && (query.throughSequence.Some? ==> page.throughSequence == query.throughSequence.value)
    && (query.headHash.Some? ==> page.integrity.headHash == query.headHash.value)
  }

  /** What a page must be to be accepted: the right header, a continuation of the queried chain up
      to the pinned head, a cursor on its last event, and the head hash reached when it is final. */
  ghost predicate PageContinues(query: PageQuery, page: AuditPage) {
    && InScope(query.organizationId, query.projectKey, page.events)
    && Within(page.throughSequence, page.events)
    && Extends(query.afterSequence, query.previousEventHash, page.events)
  }

  predicate CursorAdvances(query: PageQuery, page: AuditPage) {
    && page.nextCursor == LastSequence(query.afterSequence, page.events)
    && (page.hasMore ==> page.events != [])
  }

  predicate FinalHashReached(query: PageQuery, page: AuditPage) {
    page.hasMore || LastHash(query.previousEventHash, page.events) == page.integrity.headHash
  }

  ghost function PageVerdict(query: PageQuery, page: AuditPage): Option<ProtocolError> {
    if !HeaderMatches(query, page) then Some(CheckpointMismatch)
    else if !PageContinues(query, page) then Some(BrokenSequence)
    else if !CursorAdvances(query, page) then Some(NoBoundedProgress)
    else if !FinalHashReached(query, page) then Some(FinalHashMismatch)
    else None
  }

  /** `validateAuditPage` on a page of the right schema: one pass that carries the previous
      sequence and hash. On success it returns the hash the chain now stands at. */
  method ValidateAuditPage(query: PageQuery, page: AuditPage) returns (r: Result<string, ProtocolError>)
    ensures r.Ok? <==> PageVerdict(query, page).None?
    ensures r.Err? ==> PageVerdict(query, page) == Some(r.error)
    ensures r.Ok? ==> r.value == LastHash(query.previousEventHash, page.events)
  {
    if !HeaderMatches(query, page) {
      return Err(CheckpointMismatch);
    }
    var previousSequence, previousHash := query.afterSequence, query.previousEventHash;
    var i := 0;
    while i < |page.events|
      invariant 0 <= i <= |page.events|
      invariant previousSequence == LastSequence(query.afterSequence, page.events[..i])
      invariant previousHash == LastHash(query.previousEventHash, page.events[..i])
      invariant InScope(query.organizationId, query.projectKey, page.events[..i])
      invariant Within(page.throughSequence, page.events[..i])
      invariant Extends(query.afterSequence, query.previousEventHash, page.events[..i])
    {
      var event := page.events[i];
      assert page.events[..i + 1] == page.events[..i] + [event];
      if event.organizationId != query.organizationId || event.projectKey != query.projectKey
         || event.sequence <= previousSequence || event.sequence > page.throughSequence
         || event.previousHash != previousHash {
        RejectedEventBreaksChain(query, page, i);
        return Err(BrokenSequence);
      }
      previousSequence, previousHash := event.sequence, event.eventHash;
      i := i + 1;
    }
    assert page.events[..i] == page.events;
    if !CursorAdvances(query, page) {
      return Err(NoBoundedProgress);
    }
    if !page.hasMore && previousHash != page.integrity.headHash {
      return Err(FinalHashMismatch);
    }
    return Ok(previousHash);
  }

  /** An event that does not continue the ones before it spoils every page that holds it. */
  lemma RejectedEventBreaksChain(query: PageQuery, page: AuditPage, i: nat)
    requires i < |page.events|
    requires var before, event := page.events[..i], page.events[i];
      || event.organizationId != query.organizationId || event.projectKey != query.projectKey
      || event.sequence <= LastSequence(query.afterSequence, before) || event.sequence > page.throughSequence
      || event.previousHash != LastHash(query.previousEventHash, before)
    ensures !PageContinues(query, page)
  {
    var before, event := page.events[..i], page.events[i];
    assert event in page.events;
    assert page.events == (before + [event]) + page.events[i + 1..];
    ExtendsSplit(query.afterSequence, query.previousEventHash, before + [event], page.events[i + 1..]);
    assert (before + [event])[..i] == before;
  }

  // ----- batches

  function EventHashes(events: seq<AuditEvent>): seq<string> {
    if events == [] then [] else [events[0].eventHash] + EventHashes(events[1..])
  }

  /** `createRetentionBatch` on a non-empty page. */
  function CreateBatch(crypto: Crypto, sourceOrigin: string, organizationId: string, projectKey: string,
                       checkpoint: Head, afterSequence: nat, previousEventHash: string,
                       previousReceiptDigest: Option<string>, events: seq<AuditEvent>): RetentionBatch
    requires events != []
  {
    var first, last := events[0], events[|events| - 1];
    var identity := BatchIdentity(organizationId, projectKey, checkpoint, afterSequence,
                                  first.sequence, last.sequence, previousReceiptDigest,
                                  EventHashes(events));
    RetentionBatch("audit_" + crypto.batchIdentity(identity), sourceOrigin, organizationId, projectKey,
                   checkpoint,
                   Range(afterSequence, first.sequence, last.sequence, |events|,
                         previousEventHash, last.eventHash),
                   previousReceiptDigest, events)
  }

  // ----- acknowledgements

  predicate AckSchemaHolds(ack: Acknowledgement) {
    && ack.statement.receiptSequence <= MAX_SAFE_INTEGER
    && ack.statement.firstSequence <= MAX_SAFE_INTEGER
    && ack.statement.lastSequence <= MAX_SAFE_INTEGER
    && 1 <= ack.statement.eventCount <= MAX_PAGE_EVENTS
  }

  predicate AckMatchesBatch(statement: Statement, batch: RetentionBatch, payloadDigest: string) {
    && statement.organizationId == batch.organizationId
    && statement.projectKey == batch.projectKey
    && statement.batchId == batch.batchId
    && statement.payloadDigest == payloadDigest
    && statement.previousReceiptDigest == batch.previousReceiptDigest
    && statement.firstSequence == batch.range.firstSequence
    && statement.lastSequence == batch.range.lastSequence
    && statement.eventCount == batch.range.eventCount
    && statement.lastEventHash == batch.range.lastEventHash
  }

  /** The receiver's own receipt chain moves forward. */
  predicate AckAdvances(previous: Option<Acknowledgement>, ack: Acknowledgement) {
    previous.Some? ==>
      && ack.statement.receiverId == previous.value.statement.receiverId
      && previous.value.statement.receiptSequence < ack.statement.receiptSequence
  }

  predicate AckRetains(statement: Statement, minimumRetentionDays: int) {
    statement.retainedAt + minimumRetentionDays * DAY <= statement.immutableUntil
  }

  function Abs(x: int): nat { if x < 0 then -x else x }

  /** `verifyRetentionAcknowledgement`; on success the source also returns the digest of `ack`. */
  function AckVerdict(crypto: Crypto, ack: Acknowledgement, batch: RetentionBatch, expectedKeyId: string,
                      publicKey: string, minimumRetentionDays: int, now: int,
                      previous: Option<Acknowledgement>): Option<ProtocolError>
  {
    if !AckSchemaHolds(ack) then Some(AckSchema)
    else if ack.keyId != expectedKeyId then Some(AckUnexpectedKey)
    else if !AckMatchesBatch(ack.statement, batch, crypto.payloadDigest(batch)) then Some(AckDoesNotMatchBatch)
    else if !AckAdvances(previous, ack) then Some(AckDidNotAdvance)
    else if !crypto.verifies(publicKey, (ack.statement, ack.keyId), ack.signature) then Some(AckSignatureInvalid)
    else if Abs(ack.statement.retainedAt - now) > CLOCK_SKEW then Some(AckOutsideClockSkew)
    else if !AckRetains(ack.statement, minimumRetentionDays) then Some(AckRetentionTooShort)
    else None
  }

  // ----- receipts

  const RELEASE_CHECKPOINT_NAMES: seq<string> := [
    "staging", "marketplace", "app_evidence_health", "cli_sessions", "cli_admin",
    "marketplace_release_revocation", "workload_issuer_rotation"]

  predicate DistinctNames(checkpoints: seq<Checkpoint>) {
    forall i, j :: 0 <= i < j < |checkpoints| ==> checkpoints[i].name != checkpoints[j].name
  }

  predicate CheckpointSetSchema(checkpoints: seq<Checkpoint>) {
    && |checkpoints| == |RELEASE_CHECKPOINT_NAMES|
    && (forall c :: c in checkpoints ==> c.sequence <= MAX_SAFE_INTEGER && c.name in RELEASE_CHECKPOINT_NAMES)
    && DistinctNames(checkpoints)
    && forall name :: name in RELEASE_CHECKPOINT_NAMES ==> exists c :: c in checkpoints && c.name == name
  }

  predicate ReceiptSchemaHolds(receipt: DrainReceipt) {
    && receipt.fromSequence <= MAX_SAFE_INTEGER
    && receipt.throughSequence <= MAX_SAFE_INTEGER
    && receipt.eventCount <= MAX_SAFE_INTEGER
    && receipt.batchCount <= MAX_SAFE_INTEGER
    && (receipt.lastDestinationAcknowledgement.Some? ==>
          AckSchemaHolds(receipt.lastDestinationAcknowledgement.value))
    && (receipt.checkpoints.Some? ==> CheckpointSetSchema(receipt.checkpoints.value))
  }

  datatype ReceiptScopeOf = ReceiptScopeOf(
    organizationId: string, projectKey: string, sourceOrigin: string, destinationOrigin: string)

  function ScopeOf(receipt: DrainReceipt): ReceiptScopeOf {
    ReceiptScopeOf(receipt.organizationId, receipt.projectKey, receipt.sourceOrigin, receipt.destinationOrigin)
  }

  /** `parsePreviousDrainReceipt`: whether a stored receipt may seed the next drain. */
  function ReceiptVerdict(crypto: Crypto, receipt: DrainReceipt, scope: ReceiptScopeOf,
                          trustedKeys: map<string, string>, minimumRetentionDays: int, now: int)
    : Option<ProtocolError>
  {
    if !ReceiptSchemaHolds(receipt) then Some(ReceiptSchema)
    else if ScopeOf(receipt) != scope then Some(ReceiptScope)
    else match receipt.lastDestinationAcknowledgement
      case Some(ack) =>
        if ack.keyId !in trustedKeys
           || !crypto.verifies(trustedKeys[ack.keyId], (ack.statement, ack.keyId), ack.signature)
        then Some(ReceiptSignatureInvalid)
        else if receipt.lastDestinationReceiptDigest != Some(crypto.receiptDigest(ack))
                || ack.statement.lastSequence != receipt.throughSequence
                || ack.statement.lastEventHash != receipt.headHash
        then Some(ReceiptNotBound)
        else if !AckRetains(ack.statement, minimumRetentionDays) || ack.statement.immutableUntil < now
        then Some(ReceiptExpired)
        else None
      case None =>
        if receipt.lastDestinationReceiptDigest.Some? || receipt.throughSequence != 0
           || receipt.headHash != GENESIS_HASH
        then Some(ReceiptMissingAck)
        else None
  }
}
