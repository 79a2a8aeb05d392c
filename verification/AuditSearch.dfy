/** `findStagingAuditEventEvidence` (scripts/staging-machine-audit-proof.ts): a bounded search for one
    matching event under a head pinned by the first response. */
module AuditSearch {
  import opened Wrappers
  import opened AuditProtocol
  import opened AuditDrain
  import opened HonestSource

  const SEARCH_PAGES: nat := 50
  const SEARCH_LIMIT: nat := 500

  datatype SearchError = Refused | Unverified | CrossedScope | CheckpointChanged | DidNotAdvance | Omitted

  datatype Evidence = Evidence(afterSequence: nat, throughSequence: nat, headHash: string)

  /** The result, and the pages it was read from. */
  datatype Search = Search(result: Result<Evidence, SearchError>, visited: seq<AuditPage>)

  datatype Query = Query(
    organizationId: string, projectKey: string, afterSequence: nat,
    source: (nat, PageRequest) -> Reply<AuditPage>, matches: AuditEvent -> bool)

  predicate AnyMatch(matches: AuditEvent -> bool, events: seq<AuditEvent>) {
    exists e :: e in events && matches(e)
  }

  /** The head pinned by the first page, if there has been one. */
  function PinOf(visited: seq<AuditPage>): Option<Head> {
    if visited == [] then None else Some(Head(visited[0].throughSequence, visited[0].integrity.headHash))
  }

  function RequestAfter(query: Query, visited: seq<AuditPage>): PageRequest {
    PageRequest(if visited == [] then query.afterSequence else visited[|visited| - 1].nextCursor, SEARCH_LIMIT,
                if visited == [] then None else Some(visited[0].throughSequence))
  }

  /** The check that stops the search at a page, given the cursor it was requested with. */
  function PageError(query: Query, after: nat, pin: Option<Head>, page: AuditPage): Option<SearchError> {
    if page.organizationId != query.organizationId || page.projectKey != query.projectKey
       || page.afterSequence != after
    then Some(CrossedScope)
    else if page.throughSequence > MAX_SAFE_INTEGER || page.throughSequence < query.afterSequence
            || (pin.Some? && pin.value != Head(page.throughSequence, page.integrity.headHash))
    then Some(CheckpointChanged)
    else None
  }

  function SearchFrom(query: Query, visited: seq<AuditPage>): Search
    decreases SEARCH_PAGES - |visited|
  {
    if |visited| >= SEARCH_PAGES then Search(Err(Omitted), visited)
    else
      var request := RequestAfter(query, visited);
      match query.source(|visited|, request)
      case Rejected => Search(Err(Refused), visited)
      case Malformed => Search(Err(Unverified), visited)
      case Delivered(page) =>
        var failed := PageError(query, request.after, PinOf(visited), page);
        if failed.Some? then Search(Err(failed.value), visited)
        else
          var seen := visited + [page];
          var pin := PinOf(seen).value;
          if AnyMatch(query.matches, page.events) then
            Search(Ok(Evidence(query.afterSequence, pin.sequence, pin.hash)), seen)
          else if !page.hasMore then Search(Err(Omitted), seen)
          else if page.nextCursor > MAX_SAFE_INTEGER || page.nextCursor <= request.after
                  || page.nextCursor > pin.sequence
          then Search(Err(DidNotAdvance), seen)
          else SearchFrom(query, seen)
  }

  /** The source's loop. */
  method FindAuditEvent(query: Query) returns (r: Search)
    ensures r == SearchFrom(query, [])
  {
    var after := query.afterSequence;
    var through: Option<nat>, checkpointHash: Option<string> := None, None;
    var visited: seq<AuditPage> := [];
    for page := 0 to SEARCH_PAGES
      invariant |visited| == page
      invariant after == RequestAfter(query, visited).after
      invariant through == RequestAfter(query, visited).through
      invariant PinOf(visited) == if through.Some? && checkpointHash.Some?
                                  then Some(Head(through.value, checkpointHash.value)) else None
      invariant through.Some? <==> checkpointHash.Some?
      invariant SearchFrom(query, []) == SearchFrom(query, visited)
    {
      var response := query.source(page, PageRequest(after, SEARCH_LIMIT, through));
      if response.Rejected? {
        return Search(Err(Refused), visited);
      }
      if response.Malformed? {
        return Search(Err(Unverified), visited);
      }
      var audit := response.value;
      if audit.organizationId != query.organizationId || audit.projectKey != query.projectKey
         || audit.afterSequence != after {
        return Search(Err(CrossedScope), visited);
      }
      if audit.throughSequence > MAX_SAFE_INTEGER || audit.throughSequence < query.afterSequence
         || (through.Some? && audit.throughSequence != through.value)
         || (checkpointHash.Some? && audit.integrity.headHash != checkpointHash.value) {
        return Search(Err(CheckpointChanged), visited);
      }
      visited := visited + [audit];
      if through.None? {
        through := Some(audit.throughSequence);
      }
      if checkpointHash.None? {
        checkpointHash := Some(audit.integrity.headHash);
      }
      if AnyMatch(query.matches, audit.events) {
        return Search(Ok(Evidence(query.afterSequence, through.value, checkpointHash.value)), visited);
      }
      if !audit.hasMore {
        return Search(Err(Omitted), visited);
      }
      if audit.nextCursor > MAX_SAFE_INTEGER || audit.nextCursor <= after || audit.nextCursor > through.value {
        return Search(Err(DidNotAdvance), visited);
      }
      after := audit.nextCursor;
    }
    return Search(Err(Omitted), visited);
  }

  // ----- every search

  /** The pages read so far: answers to successive requests, all pinned to one head, with a strictly
      increasing cursor within it. */
  ghost predicate PinnedVisit(query: Query, visited: seq<AuditPage>) {
    && |visited| <= SEARCH_PAGES
    && forall i :: 0 <= i < |visited| ==>
         && query.source(i, RequestAfter(query, visited[..i])) == Delivered(visited[i])
         && visited[i].afterSequence == RequestAfter(query, visited[..i]).after
         && query.afterSequence <= visited[i].afterSequence
         && Head(visited[i].throughSequence, visited[i].integrity.headHash) == PinOf(visited).value
         && query.afterSequence <= visited[i].throughSequence
         && (0 < i ==> visited[i - 1].afterSequence < visited[i].afterSequence <= visited[i].throughSequence)
  }

  lemma VisitOneMore(query: Query, visited: seq<AuditPage>, page: AuditPage)
    requires PinnedVisit(query, visited) && |visited| < SEARCH_PAGES
    requires visited != [] ==> var last := visited[|visited| - 1];
      last.afterSequence < last.nextCursor <= visited[0].throughSequence
    requires var request := RequestAfter(query, visited);
      && query.source(|visited|, request) == Delivered(page)
      && PageError(query, request.after, PinOf(visited), page).None?
    ensures PinnedVisit(query, visited + [page])
  {
    var seen := visited + [page];
    forall i | 0 <= i < |visited| ensures seen[..i] == visited[..i] && seen[i] == visited[i] {}
    assert seen[..|visited|] == visited;
  }

  ghost predicate NoMatch(query: Query, pages: seq<AuditPage>) {
    forall p :: p in pages ==> !AnyMatch(query.matches, p.events)
  }

  ghost predicate SoundSearch(query: Query, r: Search) {
    && PinnedVisit(query, r.visited)
    && (r.result.Err? ==> NoMatch(query, r.visited))
    && (r.result.Ok? ==>
          && r.visited != []
          && AnyMatch(query.matches, r.visited[|r.visited| - 1].events)
          && NoMatch(query, r.visited[..|r.visited| - 1])
          && r.result.value.afterSequence == query.afterSequence
          && PinOf(r.visited) == Some(Head(r.result.value.throughSequence, r.result.value.headHash)))
  }

  /** Evidence is only returned for a match on the last page read, no earlier page holds one, and all
      of them were read under the one head the evidence names. */
  lemma {:induction false} SearchIsPinned(query: Query, visited: seq<AuditPage>)
    requires PinnedVisit(query, visited)
    requires visited != [] ==> var last := visited[|visited| - 1];
      last.afterSequence < last.nextCursor <= visited[0].throughSequence
    requires NoMatch(query, visited)
    ensures SoundSearch(query, SearchFrom(query, visited))
    decreases SEARCH_PAGES - |visited|
  {
    if |visited| < SEARCH_PAGES {
      var request := RequestAfter(query, visited);
      match query.source(|visited|, request)
      case Rejected =>
      case Malformed =>
      case Delivered(page) =>
        if PageError(query, request.after, PinOf(visited), page).None? {
          var seen := visited + [page];
          VisitOneMore(query, visited, page);
          assert seen[..|seen| - 1] == visited;
          if !AnyMatch(query.matches, page.events) && page.hasMore && page.nextCursor <= MAX_SAFE_INTEGER
             && request.after < page.nextCursor <= PinOf(seen).value.sequence {
            SearchIsPinned(query, seen);
          }
        }
    }
  }

  lemma EverySearchIsSound(query: Query)
    ensures SoundSearch(query, SearchFrom(query, []))
  {
    SearchIsPinned(query, []);
  }

  // ----- against an honest source

  ghost predicate HonestQuery(query: Query, history: nat -> seq<AuditEvent>) {
    && AppendOnly(query.organizationId, query.projectKey, history)
    && forall n: nat, request: PageRequest ::
         query.source(n, request) == HonestReply(query.organizationId, query.projectKey, history(n), request)
  }

  /** The events the search can reach from position `p` in the pages it has left. */
  ghost function Reach(log: seq<AuditEvent>, p: nat, pagesLeft: nat): seq<AuditEvent>
    requires p <= |log|
  {
    Take(log[p..], SEARCH_LIMIT * pagesLeft)
  }

  /** Pages have been read up to position `p` of the pinned log. */
  ghost predicate SearchAt(query: Query, log: seq<AuditEvent>, p: nat, visited: seq<AuditPage>) {
    && |visited| <= SEARCH_PAGES
    && CursorAt(log, RequestAfter(query, visited).after, p)
    && query.afterSequence <= RequestAfter(query, visited).after
    && (visited != [] ==> PinOf(visited) == Some(Head(LastSequence(0, log), LastHash(GENESIS_HASH, log))))
  }

  lemma {:induction false} HonestSearch(query: Query, history: nat -> seq<AuditEvent>, p: nat, visited: seq<AuditPage>)
    requires HonestQuery(query, history) && SearchAt(query, history(0), p, visited)
    ensures var r := SearchFrom(query, visited);
      && (r.result.Ok? <==> AnyMatch(query.matches, Reach(history(0), p, SEARCH_PAGES - |visited|)))
      && (r.result.Ok? ==> r.result.value == Evidence(query.afterSequence, LastSequence(0, history(0)),
                                                      LastHash(GENESIS_HASH, history(0))))
    decreases SEARCH_PAGES - |visited|
  {
    hide HonestQuery, Reach, AnyMatch, PageError, Extends, RequestAfter;
    var log := history(0);
    var left := SEARCH_PAGES - |visited|;
    if left > 0 {
      var page := HonestSearchPage(query, history, p, visited);
      var end := PageEnd(p, SEARCH_LIMIT, |log|);
      ReachSplits(query.matches, log, p, left);
      if !AnyMatch(query.matches, page.events) {
        if page.hasMore {
          HonestSearch(query, history, end, visited + [page]);
        } else {
          NothingLeft(query.matches, log, end, left - 1);
        }
      }
    } else {
      NothingLeft(query.matches, log, p, 0);
    }
  }

  lemma NothingLeft(matches: AuditEvent -> bool, log: seq<AuditEvent>, p: nat, pagesLeft: nat)
    requires p <= |log| && (p == |log| || pagesLeft == 0)
    ensures !AnyMatch(matches, Reach(log, p, pagesLeft))
  {
    assert Reach(log, p, pagesLeft) == [];
  }

  /** The honest page at the current position passes the search's checks and leads to the next one. */
  lemma HonestSearchPage(query: Query, history: nat -> seq<AuditEvent>, p: nat, visited: seq<AuditPage>)
    returns (page: AuditPage)
    requires HonestQuery(query, history) && SearchAt(query, history(0), p, visited) && |visited| < SEARCH_PAGES
    ensures var log := history(0);
      var end := PageEnd(p, SEARCH_LIMIT, |log|);
      var request := RequestAfter(query, visited);
      && query.source(|visited|, request) == Delivered(page)
      && PageError(query, request.after, PinOf(visited), page).None?
      && page.events == log[p..end]
      && page.hasMore == (end < |log|)
      && PinOf(visited + [page]) == Some(Head(LastSequence(0, log), LastHash(GENESIS_HASH, log)))
      && page.nextCursor <= MAX_SAFE_INTEGER
      && (page.hasMore ==>
            && request.after < page.nextCursor <= LastSequence(0, log)
            && SearchAt(query, log, end, visited + [page]))
  {
    hide Extends, HonestReply, AnyMatch;
    var log, current := history(0), history(|visited|);
    var request := RequestAfter(query, visited);
    assert ValidLog(query.organizationId, query.projectKey, current) && log <= current;
    assert ValidLog(query.organizationId, query.projectKey, log);
    HonestPage(query.organizationId, query.projectKey, log, current, p, request);
    page := query.source(|visited|, request).value;
    PageCursor(log, request.after, p, PageEnd(p, SEARCH_LIMIT, |log|));
  }

  lemma ReachSplits(matches: AuditEvent -> bool, log: seq<AuditEvent>, p: nat, pagesLeft: nat)
    requires p <= |log| && 0 < pagesLeft
    ensures var end := PageEnd(p, SEARCH_LIMIT, |log|);
      AnyMatch(matches, Reach(log, p, pagesLeft)) <==>
      (AnyMatch(matches, log[p..end]) || AnyMatch(matches, Reach(log, end, pagesLeft - 1)))
  {
    var end := PageEnd(p, SEARCH_LIMIT, |log|);
    assert Reach(log, p, pagesLeft) == log[p..end] + Reach(log, end, pagesLeft - 1);
  }

  /** Against an honest source the search finds evidence exactly when a matching event is among the
      first 25000 events after the cursor, up to the head at the first request; what is appended
      meanwhile makes no difference. */
  lemma SearchFindsIff(query: Query, history: nat -> seq<AuditEvent>)
    requires HonestQuery(query, history)
    ensures var r := SearchFrom(query, []);
      var log := history(0);
      && (r.result.Ok? <==>
            AnyMatch(query.matches, Take(Filter(log, query.afterSequence, LastSequence(0, log)), 25_000)))
      && (r.result.Ok? ==> r.result.value == Evidence(query.afterSequence, LastSequence(0, log),
                                                      LastHash(GENESIS_HASH, log)))
  {
    var log := history(0);
    assert ValidLog(query.organizationId, query.projectKey, log);
    var after := query.afterSequence;
    if after <= LastSequence(0, log) {
      var p := CursorPosition(log, after);
      PinnedFilter(log, log, after, p);
      HonestSearch(query, history, p, []);
    } else {
      FilterEmpty(log, after, LastSequence(0, log));
      CursorBeyondHead(query, log);
    }
  }

  /** An honest source refuses a cursor beyond its head. */
  lemma CursorBeyondHead(query: Query, log: seq<AuditEvent>)
    requires query.source(0, RequestAfter(query, []))
          == HonestReply(query.organizationId, query.projectKey, log, RequestAfter(query, []))
    requires LastSequence(0, log) < query.afterSequence
    ensures SearchFrom(query, []) == Search(Err(Refused), [])
  {}

  /** Every cursor within the log is at some position. */
  lemma {:induction false} CursorPosition(log: seq<AuditEvent>, after: nat) returns (p: nat)
    requires after <= LastSequence(0, log)
    ensures CursorAt(log, after, p)
  {
    p := |log|;
    while 0 < p && after < log[p - 1].sequence
      invariant p <= |log|
      invariant p < |log| ==> after < log[p].sequence
    {
      p := p - 1;
    }
    if 0 < p {
      assert log[..p][p - 1] == log[p - 1];
    }
  }
}
