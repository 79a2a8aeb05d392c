# Loopgraph promotion evidence: a verified model

This project models, in Dafny, the parts of Loopgraph that decide whether a release may be promoted and
whether its audit history was really retained, and proves what they guarantee on every input, every run
and every interleaving. `dafny verify dfyconfig.toml` checks it.

**The audit-retention drain.** `drainAuditRetention` copies a tenant's hash-chained audit log, page by page,
to an independent receiver. `AuditProtocol` holds the data and the checks on pages, batches,
acknowledgements and stored receipts. `AuditDrain` is the loop itself, with the source, the receiver and the
clock as arbitrary functions of the call number, so a statement about every `Environment` is a statement
about every adversary. `DrainSafety` proves the invariant of the loop, `DrainTheorems` what whole drains and
series of drains amount to, `RetentionText` what a posted text says, `HonestSource` and `DrainRefinement` that
an honest run is a plain copy of one slice of the log, and `AuditSearch` the bounded search for one audit event.

**The fenced double collect.** The snapshot reconciliation reads a generation, two stores in many separate
reads, and the generation again, until two passes agree. `SnapshotStore` lets the stores change between any
two reads; `SnapshotReconciliation` is the pass and the loop; `SnapshotTheorems` proves that a returned pass
is an atomic snapshot; `SnapshotReceipt` relates the resulting receipt to the gate of the manifest.

**The evidence manifest.** `JsonText` and `CanonicalJson` model `JSON.stringify` and the canonical form all
digests are taken over; `TextFidelity` proves what that text says of a value. `ReleaseControls` and
`EvidenceManifest` are the checks, `build` and `verify`; `ManifestBinding`, `ManifestTheorems` and `ManifestGates`
prove what a manifest binds, when it verifies, and that the outputs of the two systems above pass its gates;
`ManifestWitness` shows evidence that is accepted.

**Smaller cores.** `TopologyLayout`, `TopologyBoard`, `TopologyPlacement` and `TopologyTheorems`: the company
topology layout, on graphs whose parent metadata may be cyclic. `RecoveryFingerprints`: parsing and comparing
table fingerprints. `Pgpass`: the password-file printer.

Loops and records that the source updates in place are methods with loops and a class here (`AuditDrain`,
`SnapshotStore`, `SnapshotReconciliation`, `AuditSearch`, `TopologyBoard`, `RecoveryFingerprints`), each
proved equal to a function; the theorems are lemmas about those functions.

## What the proofs found

- A drain's own receipt does not always seed the next drain. The page check compares the final hash with the
  pinned head hash but never the final sequence with `throughSequence`
  (scripts/audit-retention-protocol.ts:460-466). `ReceiptResumesIff` gives the exact condition and
  `UnanchoredHeadIsNotResumable` a source that makes a first drain succeed with a receipt that is refused
  for ever.
- `canonicalJson` drops every member named `__proto__`, because assigning that key sets the prototype, and
  prints an infinite number, which a numeral such as 1e999 is read as, like null (`ProtoLeavesNoTrace`,
  `InfinityPrintsAsNull`). `TextKeepsValueIff` states that the text is read back as the value exactly when
  there is no such member and no such number at any depth. Keys that are array indices are printed first and in numeric order whatever order they are inserted in;
  `CanonicalTextIff` holds all the same.
- Both losses reach the posted batches, whose event metadata may hold any JSON (`PostedTextKeepsBatchIff`,
  `PostedTextIff`). The recovery receipt refuses infinite numbers, but its `evidenceRecordCounts` record accepts
  a `__proto__` key and leaves it out: two receipts that differ there build the same manifest
  (`ProtoReceiptsBuildAlike`).
- A failed drain that is retried from the same retained head posts the same events under the same batch ids
  exactly when it is pinned to the same head, cuts the same pages and gets acknowledgements of the same digests
  (`RetryRepeatsIff`). When the head has moved no batch id is repeated (`MovedHeadRepeatsNoId`).
- The layout decides whether a node is placed by reading `layout[node.id]`, which is not falsy for names that
  every object inherits, nor for `x` and `y` once an organization, management or department node named
  `__proto__` has given the layout a position for a prototype. `PlacedIff` states exactly which nodes get a
  position; a loop named `constructor` gets none (`InheritedNameIsNotPlaced`), and neither does a loop named
  `x` beside such a department (`PrototypeHidesX`).
- All coordinates of the layout are integers, because every value it halves is even (`HalvesAreExact`); rounding
  them changes nothing.
- In a pass of the reconciliation a failed comparison read is counted as a corrupt archive, and a failed `exists`
  read as an unavailable one. When that happens alike in both passes the loop returns a result that is not
  the reconciliation of the state it read: `FaultedPassIsNotSnapshot` gives the input. `ReturnedPassIsAtomic` states exactly
  when it is: when no installation was hit, that is, when no `exists` read failed and no comparison of an intact
  archive did.

## Model

| member | source | states |
|---|---|---|
| AuditProtocol.ValidateAuditPage | scripts/audit-retention-protocol.ts:424-468 | One pass over a page accepts it exactly when its header matches the query, its events continue the queried chain inside the scope and the pinned head, its cursor is its last event, and a final page reaches the head hash; otherwise it reports the first of these that fails |
| AuditProtocol.RejectedEventBreaksChain | scripts/audit-retention-protocol.ts:447-456 | An event that fails the per-event check makes the whole page no continuation of the chain, whatever follows it |
| AuditProtocol.ExtendsSplit | scripts/audit-retention-protocol.ts:445-459 | Checking a chain in two pieces is checking it whole, the second piece from where the first ends |
| AuditProtocol.ChainIncreases | scripts/audit-retention-protocol.ts:451-457 | Accepted events have strictly increasing sequences above the start, and at least as much room as their number |
| AuditDrain.StartCheckpoints | scripts/export-audit-retention.ts:87-100 | The starting loop computes the checkpoints that sit on the retained head, or the first that precedes or contradicts it |
| AuditDrain.MatchCheckpoints | scripts/export-audit-retention.ts:146-154 | The nested loops over events and checkpoints compute the verified map, or stop at a hash mismatch |
| AuditDrain.ReceivePage | scripts/export-audit-retention.ts:103-138 | A page read from any source is either passed on to the rest of the step or stops the drain with its error and the log unchanged |
| AuditDrain.RetainPage | scripts/export-audit-retention.ts:156-215 | Posting a page either yields the one verified acknowledgement of its batch or stops with the batch logged as sent |
| AuditDrain.DrainPage | scripts/export-audit-retention.ts:102-246 | One turn of the loop does one step of the protocol state machine |
| AuditDrain.DrainPages | scripts/export-audit-retention.ts:102-247 | The bounded loop is the run of that state machine, ending with an error after 10000 pages |
| AuditDrain.DrainAuditRetention | scripts/export-audit-retention.ts:45-248 | The drain, with its configuration checks, computes the specified outcome in every environment |
| DrainSafety.StartingCheckpointsTrack | scripts/export-audit-retention.ts:88-100 | The starting loop fails exactly when a checkpoint precedes the retained head or contradicts it there; otherwise every checkpoint on the head is verified and nothing else is |
| DrainSafety.MatchEventsTrack | scripts/export-audit-retention.ts:146-154 | Matching fails exactly when an event and a checkpoint share a sequence with different hashes; otherwise verified checkpoints are exactly those reached so far |
| DrainSafety.AllVerified | scripts/export-audit-retention.ts:219-222 | The size comparison at the end suffices: as many verified names as checkpoints means each one is anchored on the drained chain |
| DrainSafety.PostedExtend | scripts/export-audit-retention.ts:156-216 | All posted events of a safe log form one scoped, hash-linked, increasing chain from the retained head |
| DrainSafety.StepKeepsInvariant | scripts/export-audit-retention.ts:102-246 | Against any source and receiver, a turn of the loop keeps the invariant, stops with a safe log, or returns a truthful receipt, and never stops on a stalled cursor or on its own receipt |
| DrainSafety.RunKeepsInvariant | scripts/export-audit-retention.ts:102-247 | The same for every whole run; the page bound is only hit after 10000 acknowledged batches |
| DrainSafety.EveryDrainIsSafe | scripts/export-audit-retention.ts:45-248 | Every drain, failed ones included, has sent one increasing hash-linked chain with each batch naming the acknowledgement before it; a finished one returns a receipt that says exactly what was retained; the stalled-cursor guard is unreachable |
| DrainTheorems.PostedSizes | scripts/export-audit-retention.ts:214-215 | Every batch carries between 1 and 500 events and the last one ends where the chain ends |
| DrainTheorems.AcknowledgedCounts | scripts/audit-retention-protocol.ts:380-392 | The acknowledged event counts add up to the events sent |
| DrainTheorems.DrainAccounting | scripts/export-audit-retention.ts:214-241 | batchCount <= eventCount <= 500 batchCount, fromSequence + eventCount <= throughSequence, eventCount is the sum of acknowledged counts, and the pages are bounded by the interval |
| DrainTheorems.AnchoredOnce | scripts/export-audit-retention.ts:141-154 | On a chain an anchored checkpoint is the start head and no event, or exactly one event |
| DrainTheorems.ReleaseCheckpointsProved | scripts/export-audit-retention.ts:87-100 | On every finished drain each release checkpoint is the start head or exactly one retained event with its sequence and hash, and lies between fromSequence and throughSequence |
| DrainTheorems.ReceiptResumesIff | scripts/audit-retention-protocol.ts:513-568 | A returned receipt is accepted as the next seed exactly when the pinned sequence is that of the last drained event (or retained head) and the last acknowledgement has not expired, for drains that sent nothing as well |
| DrainTheorems.UnanchoredHeadIsNotResumable | scripts/audit-retention-protocol.ts:460-466 | A valid first drain from an empty source that claims a positive head sequence succeeds, and its receipt is refused with every key at every time |
| DrainTheorems.SuccessiveDrainsFormOneChain | scripts/export-audit-retention.ts:75-247 | Over any number of drains, each seeded by the accepted receipt of the one before, all retained events form one scoped increasing hash-linked chain from the first start to the last head, and all acknowledgements one receipt chain |
| DrainTheorems.ReceiptsIncrease | scripts/audit-retention-protocol.ts:393-398 | Along a receipt chain the receiver stays the same and receipt sequences rise by at least one a receipt |
| DrainTheorems.NoEventSentTwice | scripts/export-audit-retention.ts:102-246 | In a whole series no two sent events share a sequence, and their order is increasing |
| DrainTheorems.HeadDeterminesEvents | scripts/audit-retention-protocol.ts:445-467 | With injective event hashes, two accepted chains from one start to one head hash are the same events |
| DrainTheorems.SameHeadSameHistory | scripts/audit-retention-protocol.ts:445-467 | Two finished drains from one retained head to one head hash retained the same events, whatever the page sizes, sources, receivers and clocks |
| DrainTheorems.BatchIdBindsEvents | scripts/audit-retention-protocol.ts:480-511 | Equal batch ids mean equal scope, checkpoint, predecessor and events, for injective digests |
| DrainTheorems.RetriedBatchIff | scripts/audit-retention-protocol.ts:480-511 | Two batches posted by two drains from one retained head, failed ones included, have one batch id exactly when they are one batch |
| DrainTheorems.RetryRepeatsIff | scripts/export-audit-retention.ts:156-216 | For any two drains from one retained head the first n batches have the same ids exactly when both are pinned to the same head, the batches hold the same events and the acknowledgements in between have the same digests |
| DrainTheorems.MovedHeadRepeatsNoId | scripts/export-audit-retention.ts:156-169 | When a second drain from one retained head is pinned to another head, none of its batch ids is one of the first |
| RetentionText.PostedTextKeepsBatchIff | scripts/export-audit-retention.ts:170-189 | The posted text can be read, and what the receiver reads is the batch exactly when no event holds a `__proto__` member or an infinite number at any depth |
| RetentionText.PostedTextIff | scripts/export-audit-retention.ts:170-174 | Two batches are posted as one text exactly when their headers are equal and their events are the same values up to key order, with `__proto__` members dropped and infinite numbers read as null |
| HonestSource.FilterIsSlice | supabase/migrations/202608170002_bounded_audit_retention_export.sql:98-105 | Selecting by sequence range from an ordered log is taking a slice of it |
| HonestSource.PageCursor | app/api/operations/audit-export/route.ts:12-61 | The cursor after a page is the position where the page ends, and `hasMore` holds exactly while the pinned head is not reached |
| HonestSource.HonestPage | app/api/operations/audit-export/route.ts:12-61 | An append-only source answers a pinned request with the next `limit` events of the pinned log, whatever was appended since |
| DrainRefinement.PageCountIsCeiling | scripts/export-audit-retention.ts:102-106 | The page count used below is max(1, ceil(events / pageSize)) |
| DrainRefinement.HonestStep | scripts/export-audit-retention.ts:102-246 | Against honest parties one turn retains the next full page of the pinned log, or finishes with the rest of it |
| DrainRefinement.HonestRun | scripts/export-audit-retention.ts:102-247 | From any position the run ends after exactly the pages that are left |
| DrainRefinement.DrainCopiesPinnedSlice | scripts/export-audit-retention.ts:102-247 | Against an honest append-only source and a correct receiver the drain succeeds and sends exactly the log from the retained head to the head at the first request, each event once and in order, in max(1, ceil(n / pageSize)) pages, whatever is appended meanwhile |
| DrainRefinement.BatchIsPage | scripts/export-audit-retention.ts:156-169 | What is posted at a position of the log is the page batch of that position, naming the retained digest at the start and that of an acknowledgement later |
| DrainRefinement.HonestDrainsGoOn | scripts/audit-retention-protocol.ts:513-568 | Against honest parties every returned receipt is accepted as the next seed exactly until its last acknowledgement expires, and the drain it seeds starts on every later log where this one ended, at a receiver that has moved on |
| DrainRefinement.HonestPartiesExist | scripts/export-audit-retention.ts:45-248 | For every valid configuration on an append-only log, every choice of digests and byte length under which the page batches fit, and every signature scheme the receiver can sign with, there is an honest environment |
| AuditSearch.FindAuditEvent | scripts/staging-machine-audit-proof.ts:88-152 | The page loop computes the specified search in every environment |
| AuditSearch.SearchIsPinned | scripts/staging-machine-audit-proof.ts:124-150 | From any point of the search, evidence is returned only for a match read under the first pinned head, and cursors strictly increase within it |
| AuditSearch.EverySearchIsSound | scripts/staging-machine-audit-proof.ts:74-153 | The same for whole searches against any source |
| AuditSearch.SearchFindsIff | scripts/staging-machine-audit-proof.ts:88-152 | Against an honest source the search succeeds exactly when a match is among the first 25000 events after the cursor up to the head at the first request, and then names that head |
| SnapshotStore.ReadTenantRegistries | scripts/reconcile-hosted-app-snapshots.ts:420-449 | The paging loop computes the specified reads, each of which may see another state |
| SnapshotStore.SameGenerationIsStill | scripts/reconcile-hosted-app-snapshots.ts:324-341 | Two reads see the same generation exactly when nothing was committed from the first to the second |
| SnapshotStore.PagingReadsTable | scripts/reconcile-hosted-app-snapshots.ts:426-448 | When all reads see one table and none fails, paging returns what the table holds, each row once and in order across page boundaries, and refuses an oversized one |
| SnapshotStore.TableAcceptedIff | scripts/reconcile-hosted-app-snapshots.ts:436-448 | A table is accepted exactly when it has at most 9999 rows and all are valid; the result is its rows in order |
| SnapshotReconciliation.ReconcileInstallations | packages/loopgraph/src/runtime/app-snapshot-reconciliation.ts:62-109 | The loop over one registry's installations computes the specified counts and reads |
| SnapshotReconciliation.ReconcileRegistries | scripts/reconcile-hosted-app-snapshots.ts:77-114 | The running aggregate and the set of workspaces compute the specified counts, and stop at a repeated workspace |
| SnapshotReconciliation.ListObjects | lib/db/adapters/supabase-app-snapshot-store.ts:216-284 | The paged listing computes the specified reads |
| SnapshotReconciliation.CollectPass | scripts/reconcile-hosted-app-snapshots.ts:280-322 | One pass is the specified series of reads between two generation reads |
| SnapshotReconciliation.CollectStable | scripts/reconcile-hosted-app-snapshots.ts:258-278 | The stability loop computes the specified result |
| SnapshotTheorems.PassIsSnapshot | scripts/reconcile-hosted-app-snapshots.ts:280-322 | A pass whose reads all saw one state is the reconciliation of that state computed at once exactly when no installation was hit by a failed read, as when it met no fault or is healthy |
| SnapshotTheorems.AgreeingPassesAreStill | scripts/reconcile-hosted-app-snapshots.ts:266-274 | Two passes that agree saw one committed state from the first read of the first to the last read of the second |
| SnapshotTheorems.StillPassesAgree | scripts/reconcile-hosted-app-snapshots.ts:266-274 | Two fault-free passes over one state agree |
| SnapshotTheorems.ReturnedPassIsAtomic | scripts/reconcile-hosted-app-snapshots.ts:258-322 | When every commit raises the generation, whatever pass the loop returns after 2 to 4 passes was read, like the one before it, on one state that was current throughout, under every interleaving; it is the snapshot of that state exactly when no failed read hit one of its installations |
| SnapshotTheorems.FaultedPassIsNotSnapshot | packages/loopgraph/src/runtime/app-snapshot-reconciliation.ts:94-99 | For every archive: on a store that never changes, one failed comparison in each of two passes makes the loop return a pass that counts the intact archive as corrupt |
| SnapshotTheorems.LoopSucceedsIff | scripts/reconcile-hosted-app-snapshots.ts:262-278 | The loop succeeds exactly when, before any pass fails, two consecutive passes among four saw no commit and read data of one digest, and stops at the first such pair |
| SnapshotTheorems.FaultFreeIsQuiet | scripts/reconcile-hosted-app-snapshots.ts:266-274 | For two completed passes without failed reads that condition says just that nothing was committed |
| SnapshotReceipt.ReferencedBounded | scripts/reconcile-hosted-app-snapshots.ts:343-373 | Referenced objects never outnumber detached installations, and are exactly the expected keys when all are verified |
| SnapshotReceipt.AggregateIgnoresOrder | scripts/reconcile-hosted-app-snapshots.ts:93-105 | The aggregate is the sum of the per-registry results as they were read: the same results in any order, from whatever reads, give the same aggregate |
| SnapshotReceipt.JudgementIgnoresOrder | scripts/reconcile-hosted-app-snapshots.ts:93-105 | On one state the counts are the same for every order of the registries |
| SnapshotReceipt.GateAcceptsIffHealthy | scripts/production-evidence-manifest.ts:606-652 | A receipt made from a stable pass meets the manifest's schema and refinements exactly when it says it is healthy |
| JsonText.StringRoundTrip | scripts/audit-retention-protocol.ts:344-346 | Reading an escaped string up to its closing quote restores it, lone surrogates included |
| JsonText.ValueRoundTrip | scripts/audit-retention-protocol.ts:344-346 | Parsing a printed value restores it, with null for every infinite number |
| JsonText.SameTextIff | scripts/audit-retention-protocol.ts:344-346 | Two values print the same exactly when they are the same once infinite numbers are read as null |
| CanonicalJson.FillObject | scripts/audit-retention-protocol.ts:642-648 | The accumulating loop over one object's keys builds the specified entries |
| CanonicalJson.SortKeysMeaning | scripts/audit-retention-protocol.ts:639-651 | Sorting keys keeps the value, with objects unordered at every depth, up to the loss of `__proto__` members |
| CanonicalJson.CanonicalUnique | scripts/audit-retention-protocol.ts:639-651 | Two values in enumeration order that mean the same are the same |
| TextFidelity.CanonicalTextIff | scripts/audit-retention-protocol.ts:344-346 | Two values have the same canonical text exactly when they are the same JSON value up to key order, once `__proto__` members are dropped and infinite numbers are read as null |
| TextFidelity.TextMeaning | scripts/audit-retention-protocol.ts:344-346 | The canonical text of any parsed value can be read, as a value in enumeration order that means what the text keeps |
| TextFidelity.PlainTextIff | scripts/audit-retention-protocol.ts:344-346 | Without `__proto__` members and infinite numbers: equal texts exactly for equal values |
| CanonicalJson.SortKeysIdempotent | scripts/audit-retention-protocol.ts:639-651 | Sorting twice is sorting once |
| TextFidelity.TextKeepsValueIff | scripts/audit-retention-protocol.ts:642-648 | The canonical text can be read, and is read as the value it was printed for exactly when at no depth a member is named `__proto__` or a number is infinite |
| TextFidelity.ProtoLeavesNoTrace | scripts/audit-retention-protocol.ts:644-645 | An object with one `__proto__` member has the text of the empty object |
| TextFidelity.InfinityPrintsAsNull | scripts/audit-retention-protocol.ts:344-346 | An array with one infinite number has the text of the array with null, and another meaning |
| ReleaseControls.ExactNamesIff | scripts/production-evidence-manifest.ts:1630-1636 | Equal length, no duplicate and every required name present together say exactly: a permutation of the required list |
| ReleaseControls.ControlsHoldIff | scripts/production-evidence-manifest.ts:980-1163 | A receipt's controls pass exactly when they are a permutation of its list and, with a status table, each reports an allowed status; the last-wins map lookup finds each control's own status |
| ManifestBinding.Utf16Injective | scripts/production-evidence-manifest.ts:1476-1482 | Different strings have different code units |
| ManifestBinding.EvidenceSame | scripts/production-evidence-manifest.ts:1300-1475 | The evidence objects mean the same exactly when all fifteen descriptors agree |
| ManifestBinding.ManifestTextIff | scripts/production-evidence-manifest.ts:1546-1552 | Two manifests have equal canonical texts exactly when they agree field by field, summaries up to key order |
| ManifestTheorems.VerifyIff | scripts/production-evidence-manifest.ts:1485-1560 | Verification accepts a manifest exactly when it equals, up to key order, what the receipts rebuild to at the manifest's own time, it and all its evidence are fresh now, and an upstream digest, if given, is its own |
| ManifestTheorems.FreshWindow | scripts/production-evidence-manifest.ts:1622-1628 | The freshness checks together hold on one interval: five minutes before the latest time to the maximum age after the earliest |
| ManifestTheorems.BuiltVerifiesIff | scripts/production-evidence-manifest.ts:1485-1560 | A built manifest verifies against its receipts exactly on that interval, which contains the time it was built |
| ManifestTheorems.DigestBindsReceipts | scripts/production-evidence-manifest.ts:1476-1482 | Unless two of the digested texts collide, equal evidenceSetDigest means equal release, scope and all fifteen receipts up to key order and `__proto__` members |
| ManifestTheorems.SameDigestIff | scripts/production-evidence-manifest.ts:1476-1482 | For one configuration and time, and schemas whose results depend on receipts up to key order and `__proto__` members, two builds have equal evidenceSetDigests exactly when their receipts are equal so, unless digests collide |
| ManifestTheorems.DigestBindsPlainReceipts | scripts/production-evidence-manifest.ts:1476-1482 | Receipts without `__proto__` members are bound as they are, up to key order |
| ManifestTheorems.UpstreamDigestPins | scripts/production-evidence-manifest.ts:1546-1559 | A manifest verified against the digest of an earlier build was verified with that build's receipts (up to key order and `__proto__` members), release and scope |
| ManifestTheorems.BuildMeansExactControls | scripts/production-evidence-manifest.ts:980-1198 | Whenever build succeeds every listed receipt holds a permutation of its controls with allowed statuses, and the reconciliation checks, recovered tables and drain checkpoints are permutations of their lists |
| ManifestGates.CheckpointSetIsExact | scripts/production-evidence-manifest.ts:1186-1198 | A valid checkpoint set always passes the exact-name check |
| ManifestGates.DrainCheckpointsAtGate | scripts/production-evidence-manifest.ts:1186-1244 | The receipt of a finished drain passes the schema, the names and the interval check; its checkpoints are refused only when the drain was told other audit heads than the receipts report |
| ManifestGates.DrainAckAtGate | scripts/production-evidence-manifest.ts:1245-1271 | The receipt of any finished drain is bound to its signed acknowledgement exactly when the pinned head was the last drained event and, if it sent nothing, the acknowledgement it carries on is one of this tenant under the release key |
| ManifestGates.ReconciliationAtGate | scripts/production-evidence-manifest.ts:1165-1180 | A reconciliation receipt passes the schema and the exact names exactly when it is healthy |
| ManifestWitness.PassingControlsHold | scripts/production-evidence-manifest.ts:980-1163 | For every listed receipt some controls pass |
| ManifestWitness.SomeEvidenceIsAccepted | scripts/production-evidence-manifest.ts:787-1483 | The checks of build can all be met at once under faithful schemas, for every organization and whatever the digests and signatures are |
| ManifestWitness.ProtoReceiptsBuildAlike | scripts/production-evidence-manifest.ts:679-679 | Two recovery receipts that differ by a `__proto__` member in `evidenceRecordCounts` build the same manifest, whatever the digests are |
| TopologyLayout.ChildrenByParentId | components/loop-graph-view.tsx:1516-1526 | The filled map holds, under every id, the nodes whose parent it is, in order |
| TopologyLayout.ColumnPlaces | components/loop-graph-view.tsx:1481-1486 | A column of new nodes keeps every earlier position and puts the k-th node k gaps down |
| TopologyLayout.SiblingsStayOpen | components/loop-graph-view.tsx:1452-1469 | Placing one child's whole subtree never places another child of the same parent, whatever cycles there are |
| TopologyLayout.Tree | components/loop-graph-view.tsx:1444-1470 | The recursion ends, because each call has one unplaced loop fewer; it keeps all positions and adds only loops that hang below its parent along nodes it placed |
| TopologyBoard.Board.Place | components/loop-graph-view.tsx:1459-1459 | Sets one position that was not set before |
| TopologyBoard.Board.PlaceGroup | components/loop-graph-view.tsx:1471-1487 | Places the unseen nodes of a group in one centred column and nothing else |
| TopologyBoard.Board.PlaceLoopTree | components/loop-graph-view.tsx:1444-1470 | The recursive placement computes the specified tree without ever overwriting a position |
| TopologyBoard.Board.PlaceDepartments | components/loop-graph-view.tsx:1236-1247 | Each department and its loop tree, in turn |
| TopologyBoard.Board.PlaceLeftovers | components/loop-graph-view.tsx:1249-1286 | The groups placed after the trees, in turn |
| TopologyBoard.MeasureBlocks | components/loop-graph-view.tsx:1217-1226 | The running cursor gives each block its centre and the whole its height |
| TopologyBoard.LayOut | components/loop-graph-view.tsx:1208-1289 | The whole layout ends on every graph with distinct ids and computes the specified positions, no position written twice |
| TopologyTheorems.StableSortIsStable | components/loop-graph-view.tsx:1489-1495 | For a total preorder the sort orders the nodes and keeps equal ones in their order |
| TopologyPlacement.TreeIsClosed | components/loop-graph-view.tsx:1444-1470 | A tree places every unseen child loop of its parent and of every node it places |
| TopologyPlacement.TreeHangs | components/loop-graph-view.tsx:1444-1470 | Whatever a tree places hangs below its parent along loops |
| TopologyPlacement.DepartmentsHang | components/loop-graph-view.tsx:1236-1247 | What hangs below a department laid out before one named `__proto__` is always placed, and of the names such a department shadows no other is |
| TopologyPlacement.PlacedIff | components/loop-graph-view.tsx:1208-1289 | On every graph, parent cycles included, a node gets a position exactly when it is the root, the management node or a department, or its id is not an inherited member name and is not the name of a nonzero coordinate of one of these three whose id is `__proto__`, unless it is a loop hanging below a department laid out earlier; nothing else gets one |
| TopologyPlacement.InheritedNameIsNotPlaced | components/loop-graph-view.tsx:1256-1256 | A loop named `constructor` gets no position |
| TopologyPlacement.PrototypeHidesX | components/loop-graph-view.tsx:1238-1256 | Beside a department named `__proto__` a loop named `x` gets no position |
| TopologyPlacement.BranchesPlace | components/loop-graph-view.tsx:1455-1460 | Siblings stand in one column, a gap apart, after all their subtrees were placed |
| TopologyTheorems.DepartmentRows | components/loop-graph-view.tsx:1236-1247 | Every loop directly below a department that the trees place, or whose name they leave unshadowed, stands at x 330 within its block |
| TopologyTheorems.BlocksApart | components/loop-graph-view.tsx:1217-1226 | Blocks do not overlap and are 38 units apart |
| TopologyTheorems.HalvesAreExact | components/loop-graph-view.tsx:1217-1230 | Every halving in the layout is exact: of a block, of the whole height and of a column |
| TopologyTheorems.DepartmentLoopsApart | components/loop-graph-view.tsx:1208-1289 | In the final layout loops directly below two different departments that can be placed, in the sense of the placement theorem, are in one column and at least 96 units apart |
| RecoveryFingerprints.ParseRecoveryFingerprints | scripts/recovery-contract.ts:149-176 | The loop that fills the map computes the specified parse |
| RecoveryFingerprints.ParseIff | scripts/recovery-contract.ts:149-176 | Output is accepted exactly when every line is a well-formed row with a safe count and the rows list every table once, in any order; each table is mapped to its row |
| RecoveryFingerprints.RowOrderIsIrrelevant | scripts/recovery-contract.ts:149-176 | Permuting the rows changes neither acceptance nor the map |
| RecoveryFingerprints.PrintThenParse | scripts/recovery-contract.ts:130-176 | Printed rows of the query parse, exactly when they cover the tables once, to the map that holds each of them |
| RecoveryFingerprints.CompareIff | scripts/recovery-contract.ts:178-199 | Comparison succeeds exactly when both maps agree on count and digest for every table, and lists the agreed values in order |
| RecoveryFingerprints.ParsedOutputsCompare | scripts/recovery-contract.ts:149-199 | Two parsed outputs compare equal exactly when they are the same map |
| Pgpass.TwoPassesAreOne | scripts/postgres-recovery-connection.ts:94-96 | Escaping backslashes and then colons is escaping both in one pass |
| Pgpass.EntryRoundTrip | scripts/postgres-recovery-connection.ts:98-106 | Splitting an entry at unescaped colons and unescaping gives back the five fields |
| Pgpass.EntryIsInjective | scripts/postgres-recovery-connection.ts:98-106 | Different connections have different entries |
| Pgpass.EntryIsOneLineIff | scripts/postgres-recovery-connection.ts:98-106 | In a file an entry is one line exactly when no field holds a newline |

## Left out

- HTTP, tokens, time-outs, child processes, environment variables and files: their results are inputs.
- SHA-256, Ed25519, URL parsing, time formats and locale comparison are uninterpreted; theorems say where injectivity, absence of a collision, or a round trip is assumed.
- Format checks of the schemas (patterns, string lengths, literals) are not modelled; the numeric bounds, list lengths and distinct names that the theorems use are.
- Receipt variants v2 to v7 are one datatype whose checkpoint list may be absent.
- AuditDrain.DrainAuditRetention: the checkpoint map is keyed by name and its insertion order is not modelled; nothing reads it.
- HonestSource.HonestPage: the database functions behind the export route are modelled from the route and the bounded export migration, with an append-only log that starts at genesis.
- DrainRefinement.DrainCopiesPinnedSlice: assumes at most 10000 pages, that the source delivers every page within the 8 MiB that are read, that each batch the drain can form from the pinned log is at most 8 MiB, and a receiver that answers each such batch, signing it in time for the clock reading the loop makes for it.
- AuditSearch.FindAuditEvent: non-record events and values that `Number` would convert are not modelled; a body of the wrong shape is one reply.
- AuditSearch.SearchFindsIff: an honest source is assumed to deliver every page within the 4 MiB that are read.
- SnapshotReconciliation.ReconcileInstallations: which folders hold something is a field of a state of its own, not derived from the stored keys.
- SnapshotReconciliation.ListObjects: the walk over virtual folders is one paged list of object keys, with a count of malformed paths; its depth and segment checks are not modelled.
- SnapshotReceipt.GateAcceptsIffHealthy: object keys stand for their digests and the list of unreferenced ones is in listing order, where the source sorts digests; object keys are assumed distinct; the fence attestation is assumed to have passed.
- SnapshotTheorems.ReturnedPassIsAtomic: descriptor extraction from a registry and the archive comparison are fields of the model's installations and states.
- JsonText.ValueRoundTrip: a finite number is the numeral printed for it; number printing itself is not modelled, and negative zero, printed as 0, is the number 0.
- EvidenceManifest.Build and EvidenceManifest.Verify: the fifteen schemas are one function from JSON receipts to the fields the checks read; the theorems assume that it returns each receipt up to key order, less its `__proto__` members, as strict objects and records do. Per-receipt summaries are one field of the parsed receipt, and the manifest schema is a predicate on manifests of the right shape.
- TopologyBoard.LayOut: a position written as `__proto__` becomes the prototype of the layout and is read back under that name; it is kept as an entry of the map, and what it shadows is modelled. Node ids are assumed distinct.
- RecoveryFingerprints.PrintThenParse: the table list is a parameter with distinct names without white space; the SQL that computes counts and digests is not modelled.
- Pgpass.EntryRoundTrip: comment lines and `*` wildcards of password files are not modelled.
- The other staging validators, the rest of the graph view, and all pages and server actions: linear request scripts and rendering.
