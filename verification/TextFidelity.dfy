/** What `canonicalJson` (scripts/audit-retention-protocol.ts) says of a value: which values share a text,
    and which can be read back from it. */
module TextFidelity {
  import opened Wrappers
  import opened JsonText
  import opened CanonicalJson

  // ----- what the text keeps of a value

  /** What the canonical text keeps of a value: no `__proto__` member, and null for infinite numbers. */
  function Kept(j: Json): Json { ReadBack(DropProto(j)) }

  function KeptItems(items: seq<Json>): (r: seq<Json>)
    ensures |r| == |items| && forall i :: 0 <= i < |items| ==> r[i] == Kept(items[i])
  {
    ReadItems(DropItems(items))
  }

  /** The value with null for every infinite number. */
  function Nulled(v: Value): Value
    decreases v, 1
  {
    match v
    case Scalar(Infinite(_)) => Scalar(Null)
    case Scalar(_) => v
    case List(items) => List(NulledItems(items))
    case Record(members) => Record(map key | key in members :: Nulled(members[key]))
  }

  function NulledItems(items: seq<Value>): (r: seq<Value>)
    ensures |r| == |items| && forall i :: 0 <= i < |items| ==> r[i] == Nulled(items[i])
    decreases items, 0
  {
    if items == [] then [] else [Nulled(items[0])] + NulledItems(items[1..])
  }

  lemma {:induction false} MeaningReadBack(j: Json)
    ensures Meaning(ReadBack(j)) == Nulled(Meaning(j))
    decreases j, 1
  {
    match j
    case Arr(items) =>
      forall i | 0 <= i < |items| ensures Meaning(ReadBack(items[i])) == Nulled(Meaning(items[i])) {
        MeaningReadBack(items[i]);
      }
      assert Meanings(ReadItems(items)) == NulledItems(Meanings(items));
    case Obj(members) => TableReadBack(members);
    case _ =>
  }

  lemma {:induction false} TableReadBack(members: seq<Member>)
    ensures Record(Table(ReadMembers(members))) == Nulled(Record(Table(members)))
    decreases members, 0
  {
    hide Nulled, Meaning, ReadBack;
    if members == [] {
      NothingNulled();
    } else {
      MeaningReadBack(members[0].value);
      TableReadBack(members[1..]);
      NulledUpdate(Table(members[1..]), members[0].key, Meaning(members[0].value));
      assert ReadMembers(members)[1..] == ReadMembers(members[1..]);
    }
  }

  lemma NothingNulled()
    ensures Nulled(Record(map[])) == Record(map[])
  {}

  lemma NulledUpdate(t: map<Text, Value>, key: Text, v: Value)
    ensures Nulled(Record(t)).Record?
    ensures Nulled(Record(t[key := v])) == Record(Nulled(Record(t)).members[key := Nulled(v)])
  {
    var u := t[key := v];
    assert Nulled(Record(u)).members == Nulled(Record(t)).members[key := Nulled(v)];
  }

  lemma {:induction false} CanonicalReadBack(j: Json)
    requires Canonical(j)
    ensures Canonical(ReadBack(j))
    decreases j
  {
    match j
    case Arr(items) =>
      forall i | 0 <= i < |items| ensures Canonical(ReadBack(items[i])) { CanonicalReadBack(items[i]); }
    case Obj(members) =>
      forall i | 0 <= i < |members| ensures Canonical(ReadBack(members[i].value)) {
        CanonicalReadBack(members[i].value);
      }
    case _ =>
  }

  /** What is read back from the canonical text is in canonical form, and it is the value kept. */
  lemma TextMeaning(j: Json)
    requires Valid(j)
    ensures Received(CanonicalText(j)) == Some(ReadBack(SortKeys(j)))
    ensures Canonical(ReadBack(SortKeys(j))) && Meaning(ReadBack(SortKeys(j))) == Meaning(Kept(j))
  {
    SortKeysValid(j);
    ReceivedIsReadBack(SortKeys(j));
    SortKeysCanonical(j);
    CanonicalReadBack(SortKeys(j));
    SortKeysMeaning(j);
    MeaningReadBack(SortKeys(j));
    MeaningReadBack(DropProto(j));
  }

  // ----- main results

  /** Two values have the same canonical text exactly when they are the same JSON value, with objects
      unordered at every depth, once their `__proto__` members are dropped and their infinite numbers are
      read as null. */
  lemma CanonicalTextIff(a: Json, b: Json)
    requires Valid(a) && Valid(b)
    ensures CanonicalText(a) == CanonicalText(b) <==> Meaning(Kept(a)) == Meaning(Kept(b))
  {
    TextMeaning(a);
    TextMeaning(b);
    SortKeysValid(a);
    SortKeysValid(b);
    SameTextIff(SortKeys(a), SortKeys(b));
    if Meaning(Kept(a)) == Meaning(Kept(b)) {
      CanonicalUnique(ReadBack(SortKeys(a)), ReadBack(SortKeys(b)));
    }
  }

  /** No member is named `__proto__` and no number is infinite, at any depth. */
  predicate Plain(j: Json) { ProtoFree(j) && Finite(j) }

  lemma PlainIsKept(j: Json)
    requires Plain(j)
    ensures Kept(j) == j
  {
    ProtoFreeDropsNothing(j);
    FiniteReadsBack(j);
  }

  /** Without `__proto__` members and infinite numbers: equal canonical texts are equal values and the
      reverse. */
  lemma PlainTextIff(a: Json, b: Json)
    requires Valid(a) && Valid(b) && Plain(a) && Plain(b)
    ensures CanonicalText(a) == CanonicalText(b) <==> Meaning(a) == Meaning(b)
  {
    PlainIsKept(a);
    PlainIsKept(b);
    CanonicalTextIff(a, b);
  }

  /** The canonical text can be read, and it is read as the value it was printed for exactly when at no
      depth a member is named `__proto__` or a number is infinite. */
  lemma TextKeepsValueIff(j: Json)
    requires Valid(j)
    ensures Received(CanonicalText(j)).Some?
    ensures Meaning(Received(CanonicalText(j)).value) == Meaning(j) <==> Plain(j)
  {
    TextMeaning(j);
    if Plain(j) {
      PlainIsKept(j);
    } else {
      KeepingLoses(j);
    }
  }

  lemma {:induction false} KeepingLoses(j: Json)
    requires Valid(j) && !Plain(j)
    ensures Meaning(Kept(j)) != Meaning(j)
    decreases j
  {
    hide Meaning, DropProto, Kept;
    match j
    case Infinite(_) => InfinityIsNulled(j);
    case Arr(items) =>
      var i :| 0 <= i < |items| && !Plain(items[i]);
      KeepingLoses(items[i]);
      ItemLost(items, i);
    case Obj(members) =>
      var i :| 0 <= i < |members| && !(members[i].key != PROTO && Plain(members[i].value));
      if members[i].key != PROTO { KeepingLoses(members[i].value); }
      EntryLost(members, i);
  }

  lemma InfinityIsNulled(j: Json)
    requires j.Infinite?
    ensures Kept(j) == Null && Meaning(Kept(j)) != Meaning(j)
  {}

  lemma ItemLost(items: seq<Json>, i: nat)
    requires i < |items| && Meaning(Kept(items[i])) != Meaning(items[i])
    ensures Meaning(Kept(Arr(items))) != Meaning(Arr(items))
  {
    assert Meanings(KeptItems(items))[i] != Meanings(items)[i];
  }

  lemma EntryLost(members: seq<Member>, i: nat)
    requires DistinctKeys(members) && i < |members|
    requires members[i].key == PROTO || Meaning(Kept(members[i].value)) != Meaning(members[i].value)
    ensures Meaning(Kept(Obj(members))) != Meaning(Obj(members))
  {
    if members[i].key != PROTO { KeptMember(members, i); } else { ProtoIsDropped(members); }
    OwnEntry(members, i);
    TableReadBack(DropMembers(members));
  }

  lemma OwnEntry(members: seq<Member>, i: nat)
    requires DistinctKeys(members) && i < |members|
    ensures members[i].key in Table(members) && Table(members)[members[i].key] == Meaning(members[i].value)
  {
    TableContents(members);
  }

  lemma DroppedMember(members: seq<Member>, i: nat)
    requires DistinctKeys(members) && i < |members| && members[i].key != PROTO
    ensures members[i].key in Table(DropMembers(members))
    ensures Table(DropMembers(members))[members[i].key] == Meaning(DropProto(members[i].value))
  {
    var d := Member(members[i].key, DropProto(members[i].value));
    DropMembersAre(members);
    DroppedDistinct(members);
    TableContents(DropMembers(members));
    assert d in DropMembers(members);
  }

  lemma KeptMember(members: seq<Member>, i: nat)
    requires DistinctKeys(members) && i < |members| && members[i].key != PROTO
    ensures members[i].key in Table(ReadMembers(DropMembers(members)))
    ensures Table(ReadMembers(DropMembers(members)))[members[i].key] == Meaning(Kept(members[i].value))
  {
    DroppedMember(members, i);
    TableReadBack(DropMembers(members));
    MeaningReadBack(DropProto(members[i].value));
  }

  lemma ProtoIsDropped(members: seq<Member>)
    requires DistinctKeys(members)
    ensures PROTO !in Table(DropMembers(members))
  {
    var dropped := DropMembers(members);
    DropMembersAre(members);
    DroppedDistinct(members);
    TableContents(dropped);
    forall k | 0 <= k < |dropped| ensures dropped[k].key != PROTO { assert dropped[k] in dropped; }
  }

  /** A `__proto__` member leaves no trace in the canonical text. */
  lemma ProtoLeavesNoTrace(value: Json)
    requires Valid(value)
    ensures var with := Obj([Member(PROTO, value)]);
      CanonicalText(with) == CanonicalText(Obj([])) && Meaning(with) != Meaning(Obj([]))
  {
    var with := Obj([Member(PROTO, value)]);
    assert with.members[1..] == [] && DropMembers([]) == [];
    assert DropMembers(with.members) == [];
    CanonicalTextIff(with, Obj([]));
    assert with.members[0].key == PROTO;
    assert PROTO in Table(with.members);
  }

  /** Nor does an infinite number: the array that holds it is printed as `[null]`. */
  lemma InfinityPrintsAsNull(negative: bool)
    ensures var infinite, none := Arr([Infinite(negative)]), Arr([Null]);
      && Valid(infinite) && CanonicalText(infinite) == CanonicalText(none)
      && Meaning(infinite) != Meaning(none)
  {
    var infinite, none := Arr([Infinite(negative)]), Arr([Null]);
    CanonicalTextIff(infinite, none);
    assert KeptItems(infinite.items) == none.items == KeptItems(none.items);
    assert Meanings(infinite.items)[0] != Meanings(none.items)[0];
  }
}
