/** The audit export of an honest source: an append-only, hash-linked event log answering
    `after`, `limit` and `through` (app/api/operations/audit-export/route.ts over the two functions
    of supabase/migrations/202608170002_bounded_audit_retention_export.sql). */
module HonestSource {
  import opened Wrappers
  import opened AuditProtocol
  import opened AuditDrain

  /** The events with a sequence above `after` and at most `through`, in order. */
  function Filter(log: seq<AuditEvent>, after: nat, through: nat): seq<AuditEvent> {
    if log == [] then []
    else
      var last := log[|log| - 1];
      Filter(log[..|log| - 1], after, through) + (if after < last.sequence <= through then [last] else [])
  }

  function Take(events: seq<AuditEvent>, limit: nat): seq<AuditEvent> {
    if |events| <= limit then events else events[..limit]
  }

  /** The hash of the event at a sequence; genesis is at sequence 0. */
  function HashAt(log: seq<AuditEvent>, sequence: nat): Option<string> {
    if sequence == 0 then Some(GENESIS_HASH)
    else if log == [] then None
    else if log[|log| - 1].sequence == sequence then Some(log[|log| - 1].eventHash)
    else HashAt(log[..|log| - 1], sequence)
  }

  function Clamp(limit: int): nat { if limit < 1 then 1 else if limit > 500 then 500 else limit }

  function HonestReply(organizationId: string, projectKey: string, log: seq<AuditEvent>, request: PageRequest)
    : Reply<AuditPage>
  {
    var current := LastSequence(0, log);
    var head := if request.through.Some? then request.through.value else current;
    match HashAt(log, head)
    case None => Rejected
    case Some(headHash) =>
      if current < head || head < request.after then Rejected
      else
        var events := Take(Filter(log, request.after, head), Clamp(request.limit));
        var nextCursor := LastSequence(request.after, events);
        Delivered(AuditPage(organizationId, projectKey, request.after, head, nextCursor, nextCursor < head,
                            Integrity(|Filter(log, 0, head)|, head, current, headHash), events))
  }

  /** What the database maintains: one tenant's hash-linked chain of events from genesis. */
  ghost predicate ValidLog(organizationId: string, projectKey: string, log: seq<AuditEvent>) {
    && Extends(0, GENESIS_HASH, log)
    && InScope(organizationId, projectKey, log)
    && Within(MAX_SAFE_INTEGER, log)
  }

  /** `history(n)` is the log at the n-th request; it only ever grows. */
  ghost predicate AppendOnly(organizationId: string, projectKey: string, history: nat -> seq<AuditEvent>) {
    && (forall n :: ValidLog(organizationId, projectKey, history(n)))
    && (forall n: nat :: history(0) <= history(n))
  }

  lemma SliceLast(log: seq<AuditEvent>, p: nat, q: nat)
    requires p <= q <= |log| && log != []
    ensures var n := |log| - 1;
      var p', q' := if p <= n then p else n, if q <= n then q else n;
      log[p..q] == log[..n][p'..q'] + (if p <= n < q then [log[n]] else [])
  {
  }

  /** When the events in range are those at positions `p` to `q`, filtering is slicing. */
  lemma {:induction false} FilterIsSlice(log: seq<AuditEvent>, after: nat, through: nat, p: nat, q: nat)
    requires p <= q <= |log|
    requires forall i :: 0 <= i < p ==> log[i].sequence <= after
    requires forall i :: p <= i < q ==> after < log[i].sequence <= through
    requires forall i :: q <= i < |log| ==> through < log[i].sequence
    ensures Filter(log, after, through) == log[p..q]
    decreases |log|
  {
    if log == [] {
    } else {
      var n := |log| - 1;
      var before := log[..n];
      var p', q' := if p <= n then p else n, if q <= n then q else n;
      FilterIsSlice(before, after, through, p', q');
      SliceLast(log, p, q);
    }
  }

  /** On a chain, the events between two positions are those between their sequences. */
  lemma ChainPositions(log: seq<AuditEvent>, p: nat, q: nat)
    requires Extends(0, GENESIS_HASH, log) && p <= q <= |log|
    ensures LastSequence(0, log[..p]) <= LastSequence(0, log[..q])
    ensures p < q ==> LastSequence(0, log[..p]) < LastSequence(0, log[..q])
    ensures Filter(log, LastSequence(0, log[..p]), LastSequence(0, log[..q])) == log[p..q]
  {
    var after, through := LastSequence(0, log[..p]), LastSequence(0, log[..q]);
    ChainBounds(log, p);
    ChainBounds(log, q);
    FilterIsSlice(log, after, through, p, q);
  }

  lemma LastOfPrefix(log: seq<AuditEvent>, p: nat)
    requires p <= |log|
    ensures LastSequence(0, log[..p]) == if p > 0 then log[p - 1].sequence else 0
  {}

  /** The events before a position are at most its sequence, those after it are above. */
  lemma ChainBounds(log: seq<AuditEvent>, p: nat)
    requires Extends(0, GENESIS_HASH, log) && p <= |log|
    ensures forall i :: 0 <= i < p ==> 0 < log[i].sequence <= LastSequence(0, log[..p])
    ensures forall i :: p <= i < |log| ==> LastSequence(0, log[..p]) < log[i].sequence
  {
    hide Extends, LastSequence, GENESIS_HASH;
    forall i | 0 <= i < p ensures 0 < log[i].sequence <= LastSequence(0, log[..p]) {
      LastOfPrefix(log, p);
      ChainOrder(log, i, p - 1);
    }
    forall i | p <= i < |log| ensures LastSequence(0, log[..p]) < log[i].sequence {
      LastOfPrefix(log, p);
      ChainOrder(log, if p > 0 then p - 1 else i, i);
    }
  }

  lemma ChainOrder(log: seq<AuditEvent>, i: nat, j: nat)
    requires Extends(0, GENESIS_HASH, log) && i <= j < |log|
    ensures 0 < log[i].sequence <= log[j].sequence
    ensures i < j ==> log[i].sequence < log[j].sequence
  {
    hide Extends, GENESIS_HASH;
    ChainIncreases(0, GENESIS_HASH, log);
    assert 0 < log[i].sequence;
    assert i < j ==> log[i].sequence < log[j].sequence;
  }

  lemma {:induction false} HashAtPosition(log: seq<AuditEvent>, p: nat)
    requires Extends(0, GENESIS_HASH, log) && p <= |log|
    ensures HashAt(log, LastSequence(0, log[..p])) == Some(LastHash(GENESIS_HASH, log[..p]))
    decreases |log|
  {
    ChainIncreases(0, GENESIS_HASH, log);
    if 0 < p < |log| {
      assert log[..|log| - 1][..p] == log[..p];
      HashAtPosition(log[..|log| - 1], p);
    }
  }

  /** Where a page of `limit` events starting at position `p` of `n` ends. */
  function PageEnd(p: nat, limit: int, n: nat): nat
    requires p <= n && 0 < limit
  {
    if p + limit < n then p + limit else n
  }

  /** `p` is the position of the cursor `after`: events before it are at most `after`, the rest above. */
  ghost predicate CursorAt(log: seq<AuditEvent>, after: nat, p: nat) {
    && p <= |log|
    && LastSequence(0, log[..p]) <= after <= LastSequence(0, log)
    && (p < |log| ==> after < log[p].sequence)
  }

  /** The page an honest source returns at chain position `p` of the pinned log. */
  ghost predicate NextPage(organizationId: string, projectKey: string, pinned: seq<AuditEvent>, after: nat,
                           p: nat, limit: int, page: AuditPage)
    requires p <= |pinned| && 0 < limit
  {
    var end := PageEnd(p, limit, |pinned|);
    && page.organizationId == organizationId && page.projectKey == projectKey
    && page.afterSequence == after
    && page.events == pinned[p..end]
    && page.throughSequence == page.integrity.headSequence == LastSequence(0, pinned)
    && page.integrity.headHash == LastHash(GENESIS_HASH, pinned)
    && page.throughSequence <= page.integrity.currentHeadSequence
    && page.nextCursor == LastSequence(after, page.events)
    && page.hasMore == (end < |pinned|)
    && PageSchema(page)
  }

  /** An honest source answers with the next `limit` events of the pinned log, whatever has been
      appended to `current` since it was pinned. */
  lemma HonestPage(organizationId: string, projectKey: string, pinned: seq<AuditEvent>, current: seq<AuditEvent>,
                   p: nat, request: PageRequest)
    requires ValidLog(organizationId, projectKey, current) && ValidLog(organizationId, projectKey, pinned)
    requires pinned <= current
    requires CursorAt(pinned, request.after, p)
    requires 1 <= request.limit <= 500
    requires request.through == Some(LastSequence(0, pinned)) || (request.through == None && current == pinned)
    ensures var reply := HonestReply(organizationId, projectKey, current, request);
      reply.Delivered? && NextPage(organizationId, projectKey, pinned, request.after, p, request.limit, reply.value)
  {
    var n := |pinned|;
    var end := PageEnd(p, request.limit, n);
    PinnedFilter(current, pinned, request.after, p);
    PinnedHead(current, pinned);
    TakeIsPage(pinned, p, request.limit);
    HonestReplyIs(organizationId, projectKey, current, request, LastSequence(0, pinned),
                  LastHash(GENESIS_HASH, pinned), pinned[p..end]);
    PageCursor(pinned, request.after, p, end);
    HonestPageSchema(organizationId, projectKey, current, request);
  }

  lemma TakeIsPage(pinned: seq<AuditEvent>, p: nat, limit: int)
    requires p <= |pinned| && 1 <= limit <= 500
    ensures Take(pinned[p..], Clamp(limit)) == pinned[p..PageEnd(p, limit, |pinned|)]
  {}

  lemma PinnedHead(current: seq<AuditEvent>, pinned: seq<AuditEvent>)
    requires Extends(0, GENESIS_HASH, current) && pinned <= current
    ensures HashAt(current, LastSequence(0, pinned)) == Some(LastHash(GENESIS_HASH, pinned))
    ensures LastSequence(0, pinned) <= LastSequence(0, current)
  {
    assert current[..|pinned|] == pinned;
    HashAtPosition(current, |pinned|);
    LastSequenceOf(current, |pinned|);
  }

  lemma LogWithin(log: seq<AuditEvent>)
    requires Extends(0, GENESIS_HASH, log)
    ensures Within(LastSequence(0, log), log)
  {
    ChainIncreases(0, GENESIS_HASH, log);
  }

  lemma LastSequenceOf(log: seq<AuditEvent>, p: nat)
    requires Extends(0, GENESIS_HASH, log) && p <= |log|
    ensures LastSequence(0, log[..p]) <= LastSequence(0, log)
  {
    assert log[..|log|] == log;
    ChainPositions(log, p, |log|);
  }

  /** Above a cursor, up to the pinned head, lies the rest of the pinned log. */
  lemma PinnedFilter(current: seq<AuditEvent>, pinned: seq<AuditEvent>, after: nat, p: nat)
    requires Extends(0, GENESIS_HASH, current) && pinned <= current && CursorAt(pinned, after, p)
    ensures Filter(current, after, LastSequence(0, pinned)) == pinned[p..]
  {
    var n := |pinned|;
    assert current[..n] == pinned && current[..p] == pinned[..p] && pinned[p..] == current[p..n];
    ChainBounds(current, p);
    ChainBounds(current, n);
    if p < n {
      LaterEventsAbove(current, p);
    }
    FilterIsSlice(current, after, LastSequence(0, pinned), p, n);
  }

  lemma LaterEventsAbove(log: seq<AuditEvent>, p: nat)
    requires Extends(0, GENESIS_HASH, log) && p < |log|
    ensures forall i :: p <= i < |log| ==> log[p].sequence <= log[i].sequence
  {
    ChainIncreases(0, GENESIS_HASH, log);
  }

  lemma LastOfPage(log: seq<AuditEvent>, after: nat, p: nat, end: nat)
    requires p <= end <= |log|
    ensures LastSequence(after, log[p..end]) == if p < end then log[end - 1].sequence else after
  {}

  /** The cursor after a page is the position where the page ends, and work remains before the head. */
  lemma PageCursor(pinned: seq<AuditEvent>, after: nat, p: nat, end: nat)
    requires Extends(0, GENESIS_HASH, pinned) && CursorAt(pinned, after, p)
    requires p <= end <= |pinned| && (p < |pinned| ==> p < end)
    ensures var next := LastSequence(after, pinned[p..end]);
      && CursorAt(pinned, next, end)
      && (next < LastSequence(0, pinned) <==> end < |pinned|)
      && (p < end ==> after < next == LastSequence(0, pinned[..end]))
  {
    hide Extends, GENESIS_HASH, LastSequence;
    LastOfPrefix(pinned, end);
    LastOfPrefix(pinned, |pinned|);
    assert pinned[..|pinned|] == pinned;
    LastOfPage(pinned, after, p, end);
    if p < end {
      var next := pinned[end - 1].sequence;
      assert pinned[p..end][end - p - 1] == pinned[end - 1];
      LaterEventsAbove(pinned, p);
      PositionIsCursor(pinned, end);
      if end < |pinned| {
        LaterEventsAbove(pinned, end);
        assert next < pinned[end].sequence <= pinned[|pinned| - 1].sequence;
      }
    } else {
      assert pinned[p..end] == [] && pinned[..|pinned|] == pinned;
    }
  }

  /** A chain position is the position of the sequence it stands at. */
  lemma PositionIsCursor(log: seq<AuditEvent>, p: nat)
    requires Extends(0, GENESIS_HASH, log) && p <= |log|
    ensures CursorAt(log, LastSequence(0, log[..p]), p)
  {
    LastSequenceOf(log, p);
    ChainBounds(log, p);
  }

  lemma HonestReplyIs(organizationId: string, projectKey: string, log: seq<AuditEvent>, request: PageRequest,
                      head: nat, headHash: string, events: seq<AuditEvent>)
    requires request.through == Some(head) || (request.through == None && head == LastSequence(0, log))
    requires HashAt(log, head) == Some(headHash)
    requires request.after <= head <= LastSequence(0, log)
    requires Take(Filter(log, request.after, head), Clamp(request.limit)) == events
    ensures var next := LastSequence(request.after, events);
      HonestReply(organizationId, projectKey, log, request) == Delivered(AuditPage(
        organizationId, projectKey, request.after, head, next, next < head,
        Integrity(|Filter(log, 0, head)|, head, LastSequence(0, log), headHash), events))
  {}

  lemma LastOfSlice(log: seq<AuditEvent>, p: nat, q: nat)
    requires p <= q <= |log|
    ensures LastSequence(LastSequence(0, log[..p]), log[p..q]) == LastSequence(0, log[..q])
    ensures LastHash(LastHash(GENESIS_HASH, log[..p]), log[p..q]) == LastHash(GENESIS_HASH, log[..q])
  {
    if p < q {
      assert log[p..q][q - p - 1] == log[q - 1] == log[..q][q - 1];
    }
  }

  /** Everything an honest source sends is a safe integer. */
  lemma HonestPageSchema(organizationId: string, projectKey: string, log: seq<AuditEvent>, request: PageRequest)
    requires ValidLog(organizationId, projectKey, log)
    ensures var reply := HonestReply(organizationId, projectKey, log, request);
      reply.Delivered? ==> PageSchema(reply.value)
  {
    var reply := HonestReply(organizationId, projectKey, log, request);
    if reply.Delivered? {
      var head := reply.value.throughSequence;
      ChainIncreases(0, GENESIS_HASH, log);
      assert LastSequence(0, log) <= MAX_SAFE_INTEGER by {
        if log != [] { assert log[|log| - 1] in log; }
      }
      FilterSize(log, 0, head);
      FilterKeeps(log, request.after, head);
      var events := reply.value.events;
      if events != [] {
        assert events[|events| - 1] in events;
      }
    }
  }

  lemma {:induction false} FilterEmpty(log: seq<AuditEvent>, after: nat, through: nat)
    requires through <= after
    ensures Filter(log, after, through) == []
  {
    if log == [] {
    } else {
      FilterEmpty(log[..|log| - 1], after, through);
    }
  }

  lemma {:induction false} FilterKeeps(log: seq<AuditEvent>, after: nat, through: nat)
    ensures forall e :: e in Filter(log, after, through) ==> e in log && after < e.sequence <= through
  {
    if log == [] {
    } else {
      FilterKeeps(log[..|log| - 1], after, through);
    }
  }

  lemma {:induction false} FilterSize(log: seq<AuditEvent>, after: nat, through: nat)
    ensures |Filter(log, after, through)| <= |log|
  {
    if log == [] {
    } else {
      FilterSize(log[..|log| - 1], after, through);
    }
  }
}
