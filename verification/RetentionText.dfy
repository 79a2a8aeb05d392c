/** The text a drain posts for a batch (`canonicalJson(batch)` in scripts/export-audit-retention.ts) and
    what the receiver can read back from it. The rendering of one event is a parameter. */
module RetentionText {
  import opened Wrappers
  import opened JsonText
  import opened CanonicalJson
  import opened TextFidelity
  import opened AuditProtocol
  import EM = EvidenceManifest
  import opened ManifestBinding

  type Rendering = AuditEvent -> Json

  function Rendered(events: seq<AuditEvent>, render: Rendering): (r: seq<Json>)
    ensures |r| == |events| && forall i :: 0 <= i < |r| ==> r[i] == render(events[i])
  {
    seq(|events|, i requires 0 <= i < |events| => render(events[i]))
  }

  function HeadJson(head: Head): Json {
    Obj([EM.Field("headSequence", Count(head.sequence)), EM.Field("headHash", EM.Text16(head.hash))])
  }

  function Count(n: nat): Json { Number(EM.DecimalOf(n)) }

  function RangeJson(r: Range): Json {
    Obj([EM.Field("afterSequence", Count(r.afterSequence)), EM.Field("firstSequence", Count(r.firstSequence)),
         EM.Field("lastSequence", Count(r.lastSequence)), EM.Field("eventCount", Count(r.eventCount)),
         EM.Field("previousEventHash", EM.Text16(r.previousEventHash)),
         EM.Field("lastEventHash", EM.Text16(r.lastEventHash))])
  }

  function DigestJson(digest: Option<string>): Json {
    if digest.Some? then EM.Text16(digest.value) else Null
  }

  function BatchMembers(b: RetentionBatch, events: seq<Json>): (r: seq<Member>)
    ensures |r| == 9
  {
    [EM.Field("schemaVersion", EM.Text16("loopgraph-audit-retention-batch/v1")),
     EM.Field("batchId", EM.Text16(b.batchId)), EM.Field("sourceOrigin", EM.Text16(b.sourceOrigin)),
     EM.Field("organizationId", EM.Text16(b.organizationId)), EM.Field("projectKey", EM.Text16(b.projectKey)),
     EM.Field("checkpoint", HeadJson(b.checkpoint)), EM.Field("range", RangeJson(b.range)),
     EM.Field("previousReceiptDigest", DigestJson(b.previousReceiptDigest)), EM.Field("events", Arr(events))]
  }

  function BatchJson(b: RetentionBatch, render: Rendering): Json { Obj(BatchMembers(b, Rendered(b.events, render))) }

  /** The body of the request. */
  function PostedText(b: RetentionBatch, render: Rendering): Text { CanonicalText(BatchJson(b, render)) }

  // ----- keys

  lemma HeadKeys(head: Head)
    ensures TellableKeys(HeadJson(head).members)
    ensures forall i :: 0 <= i < |HeadJson(head).members| ==> |HeadJson(head).members[i].key| != 9
  {
    hide EM.Utf16, EM.DecimalOf;
  }

  lemma RangeKeys(r: Range)
    ensures TellableKeys(RangeJson(r).members)
    ensures forall i :: 0 <= i < |RangeJson(r).members| ==> |RangeJson(r).members[i].key| != 9
  {
    hide EM.Utf16, EM.DecimalOf;
  }

  lemma BatchKeys(b: RetentionBatch, events: seq<Json>)
    ensures TellableKeys(BatchMembers(b, events))
    ensures forall i :: 0 <= i < 9 ==> |BatchMembers(b, events)[i].key| != 9
  {
    hide EM.Utf16, EM.DecimalOf, HeadJson, RangeJson;
  }

  // ----- header values

  lemma HeadSame(a: Head, b: Head)
    ensures Meaning(HeadJson(a)) == Meaning(HeadJson(b)) <==> a == b
    ensures Sound(HeadJson(a))
  {
    hide EM.Utf16, EM.DecimalOf, Meaning, Sound;
    var m, n := HeadJson(a).members, HeadJson(b).members;
    HeadKeys(a);
    HeadKeys(b);
    NumberSame(a.sequence, b.sequence);
    TextSame(a.hash, b.hash);
    SameByParts(m, n);
    if Meaning(Obj(m)) == Meaning(Obj(n)) {
      assert Meaning(m[0].value) == Meaning(n[0].value) && Meaning(m[1].value) == Meaning(n[1].value);
    }
  }

  lemma RangeValues(a: Range, b: Range)
    ensures var m, n := RangeJson(a).members, RangeJson(b).members;
      (forall i :: 0 <= i < 6 ==> Meaning(m[i].value) == Meaning(n[i].value)) <==> a == b
    ensures forall i :: 0 <= i < 6 ==> Sound(RangeJson(a).members[i].value)
  {
    hide EM.Utf16, EM.DecimalOf, Meaning, Sound;
    var m, n := RangeJson(a).members, RangeJson(b).members;
    NumberSame(a.afterSequence, b.afterSequence);
    NumberSame(a.firstSequence, b.firstSequence);
    NumberSame(a.lastSequence, b.lastSequence);
    NumberSame(a.eventCount, b.eventCount);
    TextSame(a.previousEventHash, b.previousEventHash);
    TextSame(a.lastEventHash, b.lastEventHash);
    if forall i :: 0 <= i < 6 ==> Meaning(m[i].value) == Meaning(n[i].value) {
      assert Meaning(m[0].value) == Meaning(n[0].value) && Meaning(m[1].value) == Meaning(n[1].value);
      assert Meaning(m[2].value) == Meaning(n[2].value) && Meaning(m[3].value) == Meaning(n[3].value);
      assert Meaning(m[4].value) == Meaning(n[4].value) && Meaning(m[5].value) == Meaning(n[5].value);
    }
  }

  lemma RangeSame(a: Range, b: Range)
    ensures Meaning(RangeJson(a)) == Meaning(RangeJson(b)) <==> a == b
    ensures Sound(RangeJson(a))
  {
    hide Meaning, Sound;
    RangeKeys(a);
    RangeKeys(b);
    RangeValues(a, b);
    SameByParts(RangeJson(a).members, RangeJson(b).members);
  }

  lemma DigestSame(a: Option<string>, b: Option<string>)
    ensures Meaning(DigestJson(a)) == Meaning(DigestJson(b)) <==> a == b
    ensures Sound(DigestJson(a))
  {
    hide EM.Utf16;
    if a.Some? { TextSame(a.value, if b.Some? then b.value else ""); }
  }

  ghost predicate SameHeader(a: RetentionBatch, b: RetentionBatch) {
    && a.batchId == b.batchId && a.sourceOrigin == b.sourceOrigin && a.organizationId == b.organizationId
    && a.projectKey == b.projectKey && a.checkpoint == b.checkpoint && a.range == b.range
    && a.previousReceiptDigest == b.previousReceiptDigest
  }

  lemma BatchValues(a: RetentionBatch, xs: seq<Json>, b: RetentionBatch, ys: seq<Json>)
    ensures var m, n := BatchMembers(a, xs), BatchMembers(b, ys);
      (forall i :: 0 <= i < 9 ==> Meaning(m[i].value) == Meaning(n[i].value))
      <==> SameHeader(a, b) && Meaning(Arr(xs)) == Meaning(Arr(ys))
    ensures forall i :: 0 <= i < 8 ==> Sound(BatchMembers(a, xs)[i].value)
  {
    hide EM.Utf16, Meaning, Sound, HeadJson, RangeJson, DigestJson;
    var m, n := BatchMembers(a, xs), BatchMembers(b, ys);
    TextSame("loopgraph-audit-retention-batch/v1", "loopgraph-audit-retention-batch/v1");
    TextSame(a.batchId, b.batchId);
    TextSame(a.sourceOrigin, b.sourceOrigin);
    TextSame(a.organizationId, b.organizationId);
    TextSame(a.projectKey, b.projectKey);
    HeadSame(a.checkpoint, b.checkpoint);
    RangeSame(a.range, b.range);
    DigestSame(a.previousReceiptDigest, b.previousReceiptDigest);
    if forall i :: 0 <= i < 9 ==> Meaning(m[i].value) == Meaning(n[i].value) {
      assert Meaning(m[1].value) == Meaning(n[1].value) && Meaning(m[2].value) == Meaning(n[2].value);
      assert Meaning(m[3].value) == Meaning(n[3].value) && Meaning(m[4].value) == Meaning(n[4].value);
      assert Meaning(m[5].value) == Meaning(n[5].value) && Meaning(m[6].value) == Meaning(n[6].value);
      assert Meaning(m[7].value) == Meaning(n[7].value) && Meaning(m[8].value) == Meaning(n[8].value);
    }
  }

  lemma BatchSame(a: RetentionBatch, xs: seq<Json>, b: RetentionBatch, ys: seq<Json>)
    ensures Meaning(Obj(BatchMembers(a, xs))) == Meaning(Obj(BatchMembers(b, ys))) <==>
      SameHeader(a, b) && Meaning(Arr(xs)) == Meaning(Arr(ys))
  {
    hide Meaning, Sound, BatchMembers;
    BatchKeys(a, xs);
    BatchKeysAgree(a, xs, b, ys);
    BatchValues(a, xs, b, ys);
    ObjSame(BatchMembers(a, xs), BatchMembers(b, ys));
  }

  lemma BatchKeysAgree(a: RetentionBatch, xs: seq<Json>, b: RetentionBatch, ys: seq<Json>)
    ensures forall i :: 0 <= i < 9 ==> BatchMembers(a, xs)[i].key == BatchMembers(b, ys)[i].key
  {
    hide EM.Utf16, HeadJson, RangeJson, DigestJson;
  }

  // ----- what the text keeps of a batch

  lemma {:induction false} DropMembersKeeps(members: seq<Member>)
    requires forall i :: 0 <= i < |members| ==> members[i].key != PROTO
    ensures |DropMembers(members)| == |members|
    ensures forall i :: 0 <= i < |members| ==>
      DropMembers(members)[i] == Member(members[i].key, DropProto(members[i].value))
  {
    if members == [] {
    } else {
      DropMembersKeeps(members[1..]);
    }
  }

  lemma KeysNotProto(m: seq<Member>)
    requires forall i :: 0 <= i < |m| ==> |m[i].key| != 9
    ensures forall i :: 0 <= i < |m| ==> m[i].key != PROTO
  {}

  /** Only events can lose members or numbers. */
  lemma KeptBatch(b: RetentionBatch, events: seq<Json>)
    ensures Kept(Obj(BatchMembers(b, events))) == Obj(BatchMembers(b, KeptItems(events)))
  {
    hide Kept, DropProto, ReadBack, KeptItems, BatchMembers, Sound, Plain;
    var m, n := BatchMembers(b, events), BatchMembers(b, KeptItems(events));
    BatchKeys(b, events);
    KeysNotProto(m);
    BatchValues(b, events, b, events);
    SameButEvents(b, events, KeptItems(events));
    forall i | 0 <= i < 8 ensures Kept(m[i].value) == m[i].value {
      SoundIsKept(m[i].value);
    }
    KeptArr(events);
    KeptMembers(m);
    assert ReadMembers(DropMembers(m)) == n;
    KeptObj(m);
  }

  lemma SoundIsKept(j: Json)
    requires Sound(j)
    ensures Kept(j) == j
  {
    PlainIsKept(j);
  }

  lemma KeptArr(items: seq<Json>)
    ensures Kept(Arr(items)) == Arr(KeptItems(items))
  {}

  lemma KeptObj(members: seq<Member>)
    ensures Kept(Obj(members)) == Obj(ReadMembers(DropMembers(members)))
  {}

  lemma KeptMembers(members: seq<Member>)
    requires forall i :: 0 <= i < |members| ==> members[i].key != PROTO
    ensures |ReadMembers(DropMembers(members))| == |members|
    ensures forall i :: 0 <= i < |members| ==>
      ReadMembers(DropMembers(members))[i] == Member(members[i].key, Kept(members[i].value))
  {
    DropMembersKeeps(members);
  }

  lemma SameButEvents(b: RetentionBatch, xs: seq<Json>, ys: seq<Json>)
    ensures forall i :: 0 <= i < 8 ==> BatchMembers(b, xs)[i] == BatchMembers(b, ys)[i]
    ensures BatchMembers(b, xs)[8].key == BatchMembers(b, ys)[8].key
    ensures BatchMembers(b, xs)[8].value == Arr(xs) && BatchMembers(b, ys)[8].value == Arr(ys)
  {
    hide EM.Utf16, HeadJson, RangeJson, DigestJson;
  }

  lemma BatchValid(b: RetentionBatch, events: seq<Json>)
    requires forall i :: 0 <= i < |events| ==> Valid(events[i])
    ensures Valid(Obj(BatchMembers(b, events)))
    ensures Plain(Obj(BatchMembers(b, events))) <==> forall i :: 0 <= i < |events| ==> Plain(events[i])
  {
    hide BatchMembers;
    var m := BatchMembers(b, events);
    BatchKeys(b, events);
    KeysNotProto(m);
    BatchValues(b, events, b, events);
    SameButEvents(b, events, events);
    assert m[8].value == Arr(events);
    PlainArr(events);
    PlainObj(m);
  }

  lemma PlainArr(items: seq<Json>)
    ensures Plain(Arr(items)) <==> forall i :: 0 <= i < |items| ==> Plain(items[i])
  {}

  lemma PlainObj(members: seq<Member>)
    ensures Plain(Obj(members)) <==>
      forall i :: 0 <= i < |members| ==> members[i].key != PROTO && Plain(members[i].value)
  {}

  // ----- results

  ghost predicate RendersValid(events: seq<AuditEvent>, render: Rendering) {
    forall e :: e in events ==> Valid(render(e))
  }

  /** The posted text can be read, and what the receiver reads is the batch exactly when no event holds a
      `__proto__` member or an infinite number at any depth. */
  lemma PostedTextKeepsBatchIff(b: RetentionBatch, render: Rendering)
    requires RendersValid(b.events, render)
    ensures Received(PostedText(b, render)).Some?
    ensures Meaning(Received(PostedText(b, render)).value) == Meaning(BatchJson(b, render)) <==>
      forall e :: e in b.events ==> Plain(render(e))
  {
    hide Meaning, CanonicalText, Received, BatchMembers, Plain, Valid;
    var events := Rendered(b.events, render);
    forall i | 0 <= i < |events| ensures Valid(events[i]) { assert b.events[i] in b.events; }
    BatchValid(b, events);
    TextKeepsValueIff(BatchJson(b, render));
    forall e | e in b.events && !Plain(render(e)) ensures exists i :: 0 <= i < |events| && !Plain(events[i]) {
      var i :| 0 <= i < |b.events| && b.events[i] == e;
      assert !Plain(events[i]);
    }
  }

  /** Two batches are posted as one text exactly when their headers are equal and their events are, one by
      one, the same values up to key order, with `__proto__` members dropped and infinite numbers read as
      null: the posted text determines everything else. */
  lemma PostedTextIff(a: RetentionBatch, b: RetentionBatch, render: Rendering)
    requires RendersValid(a.events, render) && RendersValid(b.events, render)
    ensures PostedText(a, render) == PostedText(b, render) <==>
      && SameHeader(a, b) && |a.events| == |b.events|
      && forall i :: 0 <= i < |a.events| ==>
           Meaning(Kept(render(a.events[i]))) == Meaning(Kept(render(b.events[i])))
  {
    hide Meaning, CanonicalText, BatchMembers, Valid, Kept;
    var xs, ys := Rendered(a.events, render), Rendered(b.events, render);
    forall i | 0 <= i < |xs| ensures Valid(xs[i]) { assert a.events[i] in a.events; }
    forall i | 0 <= i < |ys| ensures Valid(ys[i]) { assert b.events[i] in b.events; }
    BatchValid(a, xs);
    BatchValid(b, ys);
    CanonicalTextIff(BatchJson(a, render), BatchJson(b, render));
    KeptBatch(a, xs);
    KeptBatch(b, ys);
    BatchSame(a, KeptItems(xs), b, KeptItems(ys));
    ArrSame(KeptItems(xs), KeptItems(ys));
  }

  lemma ArrSame(xs: seq<Json>, ys: seq<Json>)
    ensures Meaning(Arr(xs)) == Meaning(Arr(ys)) <==>
      |xs| == |ys| && forall i :: 0 <= i < |xs| ==> Meaning(xs[i]) == Meaning(ys[i])
  {
    if |xs| == |ys| && forall i :: 0 <= i < |xs| ==> Meaning(xs[i]) == Meaning(ys[i]) {
      assert Meanings(xs) == Meanings(ys);
    }
    if Meaning(Arr(xs)) == Meaning(Arr(ys)) {
      forall i | 0 <= i < |xs| ensures Meaning(xs[i]) == Meaning(ys[i]) { assert Meanings(xs)[i] == Meanings(ys)[i]; }
    }
  }
}
