/** `canonicalJson` (scripts/audit-retention-protocol.ts): sort the keys of every object, then print.

    A JavaScript object enumerates its integer-index keys first, in ascending order, and then its other
    keys in insertion order, so re-inserting sorted keys does not always print them sorted. Assigning
    the key `__proto__` sets the prototype instead of a member, so such a member is not printed. Infinite
    numbers are printed as null. */
module CanonicalJson {
  import opened JsonText

  /** The key `__proto__`. */
  const PROTO: Text := [0x5F, 0x5F, 0x70, 0x72, 0x6F, 0x74, 0x6F, 0x5F, 0x5F]

  const MAX_INDEX: nat := 4294967294

  // ----- orders on keys

  /** The order of `Array.prototype.sort` on strings. */
  predicate LexLess(a: Text, b: Text) {
    b != [] && (a == [] || a[0] < b[0] || (a[0] == b[0] && LexLess(a[1..], b[1..])))
  }

  function Decimal(t: Text): nat
    requires forall i :: 0 <= i < |t| ==> 0x30 <= t[i] <= 0x39
  {
    if t == [] then 0 else 10 * Decimal(t[..|t| - 1]) + (t[|t| - 1] - 0x30)
  }

  /** A canonical array index: a decimal numeral without leading zeros, below 2^32 - 1. */
  predicate IsIndex(t: Text) {
    && t != []
    && (forall i :: 0 <= i < |t| ==> 0x30 <= t[i] <= 0x39)
    && (t[0] == 0x30 ==> |t| == 1)
    && Decimal(t) <= MAX_INDEX
  }

  /** Indices come before other keys and in numeric order; other keys in code-unit order. Indices of
      the same number are the same numeral, so the tie between them never arises. */
  predicate EnumLess(a: Text, b: Text) {
    if IsIndex(a) then
      IsIndex(b) ==> Decimal(a) < Decimal(b) || (Decimal(a) == Decimal(b) && LexLess(a, b))
    else !IsIndex(b) && LexLess(a, b)
  }

  lemma {:induction false} LexIrreflexive(a: Text)
    ensures !LexLess(a, a)
  {
    if a == [] {
    } else {
      LexIrreflexive(a[1..]);
    }
  }

  lemma {:induction false} LexTransitive(a: Text, b: Text, c: Text)
    requires LexLess(a, b) && LexLess(b, c)
    ensures LexLess(a, c)
  {
    if a != [] && a[0] == b[0] && b[0] == c[0] {
      LexTransitive(a[1..], b[1..], c[1..]);
    }
  }

  lemma {:induction false} LexTotal(a: Text, b: Text)
    ensures a == b || LexLess(a, b) || LexLess(b, a)
  {
    if a != [] && b != [] && a[0] == b[0] {
      LexTotal(a[1..], b[1..]);
      assert a == [a[0]] + a[1..] && b == [b[0]] + b[1..];
    }
  }

  lemma EnumIrreflexive(a: Text)
    ensures !EnumLess(a, a)
  {
    LexIrreflexive(a);
  }

  lemma EnumTransitive(a: Text, b: Text, c: Text)
    requires EnumLess(a, b) && EnumLess(b, c)
    ensures EnumLess(a, c)
  {
    if LexLess(a, b) && LexLess(b, c) {
      LexTransitive(a, b, c);
    }
  }

  lemma EnumTotal(a: Text, b: Text)
    ensures a == b || EnumLess(a, b) || EnumLess(b, a)
  {
    LexTotal(a, b);
  }

  // ----- sorting keys and re-inserting them

  function LexInsert(m: Member, sorted: seq<Member>): seq<Member> {
    if sorted == [] then [m]
    else if LexLess(sorted[0].key, m.key) then [sorted[0]] + LexInsert(m, sorted[1..])
    else [m] + sorted
  }

  function LexSort(members: seq<Member>): seq<Member> {
    if members == [] then [] else LexInsert(members[0], LexSort(members[1..]))
  }

  /** Where a new index key is enumerated: before the first key it precedes. */
  function IndexInsert(m: Member, entries: seq<Member>): seq<Member> {
    if entries == [] then [m]
    else if EnumLess(entries[0].key, m.key) then [entries[0]] + IndexInsert(m, entries[1..])
    else [m] + entries
  }

  /** `result[key] = value` for a key the object does not have yet. */
  function Assign(entries: seq<Member>, m: Member): seq<Member> {
    if m.key == PROTO then entries
    else if IsIndex(m.key) then IndexInsert(m, entries)
    else entries + [m]
  }

  /** The object built by assigning members in turn to an empty one. */
  function AssignAll(members: seq<Member>): seq<Member> {
    if members == [] then [] else Assign(AssignAll(members[..|members| - 1]), members[|members| - 1])
  }

  /** The accumulating loop of `sortKeys` over the sorted keys of one object. */
  method FillObject(members: seq<Member>) returns (result: seq<Member>)
    ensures result == AssignAll(members)
  {
    result := [];
    for i := 0 to |members|
      invariant result == AssignAll(members[..i])
    {
      assert members[..i + 1][..i] == members[..i];
      result := Assign(result, members[i]);
    }
    assert members[..|members|] == members;
  }

  function SortKeys(j: Json): Json
    decreases j, 1
  {
    match j
    case Arr(items) => Arr(SortItems(items))
    case Obj(members) => Obj(AssignAll(LexSort(SortValues(members))))
    case _ => j
  }

  function SortItems(items: seq<Json>): (r: seq<Json>)
    ensures |r| == |items| && forall i :: 0 <= i < |items| ==> r[i] == SortKeys(items[i])
    decreases items, 0
  {
    if items == [] then [] else [SortKeys(items[0])] + SortItems(items[1..])
  }

  function SortValues(members: seq<Member>): (r: seq<Member>)
    ensures |r| == |members|
    ensures forall i :: 0 <= i < |members| ==> r[i] == Member(members[i].key, SortKeys(members[i].value))
    decreases members, 0
  {
    if members == [] then []
    else [Member(members[0].key, SortKeys(members[0].value))] + SortValues(members[1..])
  }

  function CanonicalText(j: Json): Text { Stringify(SortKeys(j)) }

  // ----- the reference: values whose object members have no order

  /** A JSON value in the sense of section 4 of RFC 8259: an object is an unordered collection. */
  datatype Value = Scalar(j: Json) | List(items: seq<Value>) | Record(members: map<Text, Value>)

  function Meaning(j: Json): Value
    decreases j, 1
  {
    match j
    case Arr(items) => List(Meanings(items))
    case Obj(members) => Record(Table(members))
    case _ => Scalar(j)
  }

  function Meanings(items: seq<Json>): (r: seq<Value>)
    ensures |r| == |items| && forall i :: 0 <= i < |items| ==> r[i] == Meaning(items[i])
    decreases items, 0
  {
    if items == [] then [] else [Meaning(items[0])] + Meanings(items[1..])
  }

  function Table(members: seq<Member>): map<Text, Value>
    decreases members, 0
  {
    if members == [] then map[]
    else Table(members[1..])[members[0].key := Meaning(members[0].value)]
  }

  lemma {:induction false} TableContents(members: seq<Member>)
    requires DistinctKeys(members)
    ensures forall i :: 0 <= i < |members| ==>
      members[i].key in Table(members) && Table(members)[members[i].key] == Meaning(members[i].value)
    ensures forall key :: key in Table(members) ==> exists i :: 0 <= i < |members| && members[i].key == key
  {
    if members == [] {
    } else {
      var rest := members[1..];
      TableContents(rest);
      forall i | 0 <= i < |members|
        ensures members[i].key in Table(members) && Table(members)[members[i].key] == Meaning(members[i].value)
      {
        if i > 0 { assert rest[i - 1] == members[i]; }
      }
      forall key | key in Table(members) ensures exists i :: 0 <= i < |members| && members[i].key == key {
        if key in Table(rest) {
          var i :| 0 <= i < |rest| && rest[i].key == key;
          assert members[i + 1].key == key;
        } else {
          assert members[0].key == key;
        }
      }
    }
  }

  /** The value without its `__proto__` members, at every depth. */
  function DropProto(j: Json): Json
    decreases j, 1
  {
    match j
    case Arr(items) => Arr(DropItems(items))
    case Obj(members) => Obj(DropMembers(members))
    case _ => j
  }

  function DropItems(items: seq<Json>): (r: seq<Json>)
    ensures |r| == |items| && forall i :: 0 <= i < |items| ==> r[i] == DropProto(items[i])
    decreases items, 0
  {
    if items == [] then [] else [DropProto(items[0])] + DropItems(items[1..])
  }

  function DropMembers(members: seq<Member>): seq<Member>
    decreases members, 0
  {
    if members == [] then []
    else
      (if members[0].key == PROTO then [] else [Member(members[0].key, DropProto(members[0].value))])
      + DropMembers(members[1..])
  }

  lemma {:induction false} DropMembersAre(members: seq<Member>)
    ensures forall m :: m in DropMembers(members) <==>
      exists i :: 0 <= i < |members| && members[i].key != PROTO
        && m == Member(members[i].key, DropProto(members[i].value))
  {
    if members == [] {
    } else {
      var rest := members[1..];
      DropMembersAre(rest);
      forall m ensures m in DropMembers(members) <==>
        exists i :: 0 <= i < |members| && members[i].key != PROTO
          && m == Member(members[i].key, DropProto(members[i].value))
      {
        if m in DropMembers(rest) {
          var i :| 0 <= i < |rest| && rest[i].key != PROTO && m == Member(rest[i].key, DropProto(rest[i].value));
          assert members[i + 1] == rest[i];
        }
        if i :| 0 <= i < |members| && members[i].key != PROTO
                && m == Member(members[i].key, DropProto(members[i].value)) {
          if i > 0 { assert rest[i - 1] == members[i]; }
        }
      }
    }
  }

  // ----- the sorted form

  ghost predicate Ordered(members: seq<Member>) {
    forall i, k :: 0 <= i < k < |members| ==> EnumLess(members[i].key, members[k].key)
  }

  /** Every object enumerates its keys in order and none of them is `__proto__`. */
  ghost predicate Canonical(j: Json) {
    match j
    case Arr(items) => forall i :: 0 <= i < |items| ==> Canonical(items[i])
    case Obj(members) =>
      && Ordered(members)
      && forall i :: 0 <= i < |members| ==> members[i].key != PROTO && Canonical(members[i].value)
    case _ => true
  }

  ghost predicate LexOrdered(members: seq<Member>) {
    forall i, k :: 0 <= i < k < |members| ==> LexLess(members[i].key, members[k].key)
  }

  lemma {:induction false} LexInsertOrdered(m: Member, sorted: seq<Member>)
    requires LexOrdered(sorted) && forall n :: n in sorted ==> n.key != m.key
    ensures LexOrdered(LexInsert(m, sorted))
    ensures forall n :: n in LexInsert(m, sorted) <==> n == m || n in sorted
  {
    if sorted == [] {
    } else {
      LexTotal(sorted[0].key, m.key);
      assert forall n :: n in sorted <==> n == sorted[0] || n in sorted[1..];
      if LexLess(sorted[0].key, m.key) {
        LexInsertOrdered(m, sorted[1..]);
        var rest := LexInsert(m, sorted[1..]);
        forall k | 0 <= k < |rest| ensures LexLess(sorted[0].key, rest[k].key) {
          assert rest[k] in rest;
          if rest[k] != m {
            var l :| 0 <= l < |sorted[1..]| && sorted[1..][l] == rest[k];
          }
        }
      } else {
        forall k | 0 <= k < |sorted| ensures LexLess(m.key, sorted[k].key) {
          if k > 0 { LexTransitive(m.key, sorted[0].key, sorted[k].key); }
        }
      }
    }
  }

  lemma {:induction false} LexSortOrdered(members: seq<Member>)
    requires DistinctKeys(members)
    ensures LexOrdered(LexSort(members))
    ensures forall n :: n in LexSort(members) <==> n in members
  {
    if members == [] {
    } else {
      var rest := members[1..];
      LexSortOrdered(rest);
      forall n | n in LexSort(rest) ensures n.key != members[0].key {
        var i :| 0 <= i < |rest| && rest[i] == n;
        assert members[i + 1] == n;
      }
      LexInsertOrdered(members[0], LexSort(rest));
      assert forall n :: n in members <==> n == members[0] || n in rest;
    }
  }

  lemma {:induction false} IndexInsertOrdered(m: Member, entries: seq<Member>)
    requires Ordered(entries) && forall n :: n in entries ==> n.key != m.key
    ensures Ordered(IndexInsert(m, entries))
    ensures forall n :: n in IndexInsert(m, entries) <==> n == m || n in entries
  {
    if entries == [] {
    } else {
      EnumTotal(entries[0].key, m.key);
      assert forall n :: n in entries <==> n == entries[0] || n in entries[1..];
      if EnumLess(entries[0].key, m.key) {
        IndexInsertOrdered(m, entries[1..]);
        var rest := IndexInsert(m, entries[1..]);
        forall k | 0 <= k < |rest| ensures EnumLess(entries[0].key, rest[k].key) {
          assert rest[k] in rest;
          if rest[k] != m {
            var l :| 0 <= l < |entries[1..]| && entries[1..][l] == rest[k];
          }
        }
      } else {
        forall k | 0 <= k < |entries| ensures EnumLess(m.key, entries[k].key) {
          if k > 0 { EnumTransitive(m.key, entries[0].key, entries[k].key); }
        }
      }
    }
  }

  /** Assigning keys in sorted order yields the enumeration order, without the `__proto__` member. */
  lemma {:induction false} AssignAllOrdered(members: seq<Member>)
    requires LexOrdered(members)
    ensures Ordered(AssignAll(members))
    ensures forall n :: n in AssignAll(members) <==> n in members && n.key != PROTO
  {
    if members == [] {
    } else {
      var k := |members| - 1;
      var before, m := members[..k], members[k];
      AssignAllOrdered(before);
      assert forall n :: n in members <==> n in before || n == m;
      var entries := AssignAll(before);
      forall n | n in entries ensures LexLess(n.key, m.key) && n.key != m.key {
        assert n in before;
        var i :| 0 <= i < k && members[i] == n;
        LexIrreflexive(m.key);
      }
      if m.key != PROTO {
        if IsIndex(m.key) {
          IndexInsertOrdered(m, entries);
        } else {
          forall i | 0 <= i < |entries| ensures EnumLess(entries[i].key, m.key) {
            assert entries[i] in entries;
          }
        }
      }
    }
  }

  lemma SortedObject(members: seq<Member>)
    requires DistinctKeys(members)
    ensures Ordered(AssignAll(LexSort(SortValues(members))))
    ensures forall n :: n in AssignAll(LexSort(SortValues(members))) <==> IsSortedMember(members, n)
  {
    hide SortKeys, LexSort, AssignAll, Ordered, LexOrdered;
    var values := SortValues(members);
    LexSortOrdered(values);
    AssignAllOrdered(LexSort(values));
    forall n ensures n in LexSort(values) && n.key != PROTO <==> IsSortedMember(members, n) {
      SortedValuesAre(members, n);
    }
  }

  ghost predicate IsSortedMember(members: seq<Member>, n: Member) {
    exists i :: 0 <= i < |members| && members[i].key != PROTO
      && n == Member(members[i].key, SortKeys(members[i].value))
  }

  lemma SortedValuesAre(members: seq<Member>, n: Member)
    ensures n in SortValues(members) && n.key != PROTO <==> IsSortedMember(members, n)
  {
    hide SortKeys;
    var values := SortValues(members);
    if n in values {
      var i :| 0 <= i < |values| && values[i] == n;
    }
    if IsSortedMember(members, n) {
      var i :| 0 <= i < |members| && n == Member(members[i].key, SortKeys(members[i].value));
      assert values[i] == n;
    }
  }

  lemma {:induction false} SortKeysCanonical(j: Json)
    requires Valid(j)
    ensures Canonical(SortKeys(j))
    decreases j
  {
    match j
    case Arr(items) =>
      forall i | 0 <= i < |items| ensures Canonical(SortKeys(items[i])) { SortKeysCanonical(items[i]); }
    case Obj(members) =>
      SortedObject(members);
      var sorted := AssignAll(LexSort(SortValues(members)));
      forall k | 0 <= k < |sorted| ensures sorted[k].key != PROTO && Canonical(sorted[k].value) {
        assert sorted[k] in sorted;
        var i :| 0 <= i < |members| && members[i].key != PROTO
                 && sorted[k] == Member(members[i].key, SortKeys(members[i].value));
        SortKeysCanonical(members[i].value);
      }
    case _ =>
  }

  /** Sorting keys changes nothing but the order of members and the loss of `__proto__`. */
  lemma {:induction false} SortKeysMeaning(j: Json)
    requires Valid(j)
    ensures Meaning(SortKeys(j)) == Meaning(DropProto(j))
    decreases j
  {
    match j
    case Arr(items) =>
      forall i | 0 <= i < |items| ensures Meaning(SortKeys(items[i])) == Meaning(DropProto(items[i])) {
        SortKeysMeaning(items[i]);
      }
      assert Meanings(SortItems(items)) == Meanings(DropItems(items));
    case Obj(members) =>
      forall i | 0 <= i < |members|
        ensures Meaning(SortKeys(members[i].value)) == Meaning(DropProto(members[i].value))
      {
        SortKeysMeaning(members[i].value);
      }
      SortedTable(members);
    case _ =>
  }

  lemma SortedTable(members: seq<Member>)
    requires DistinctKeys(members)
    requires forall i :: 0 <= i < |members| ==>
      Meaning(SortKeys(members[i].value)) == Meaning(DropProto(members[i].value))
    ensures Table(AssignAll(LexSort(SortValues(members)))) == Table(DropMembers(members))
  {
    hide AssignAll, LexSort, SortValues, DropMembers, SortedOf, DroppedOf;
    SortedRenders(members);
    DroppedRenders(members);
    ValuesAgree(members);
    TableWithin(AssignAll(LexSort(SortValues(members))), DropMembers(members), members,
                SortedOf(members), DroppedOf(members));
    TableWithin(DropMembers(members), AssignAll(LexSort(SortValues(members))), members,
                DroppedOf(members), SortedOf(members));
  }

  lemma ValuesAgree(members: seq<Member>)
    requires forall i :: 0 <= i < |members| ==>
      Meaning(SortKeys(members[i].value)) == Meaning(DropProto(members[i].value))
    ensures |SortedOf(members)| == |DroppedOf(members)| == |members|
    ensures forall i :: 0 <= i < |members| ==> Meaning(SortedOf(members)[i]) == Meaning(DroppedOf(members)[i])
  {
    hide Meaning, SortKeys, DropProto;
  }

  function SortedOf(members: seq<Member>): (r: seq<Json>)
    ensures |r| == |members| && forall i :: 0 <= i < |members| ==> r[i] == SortKeys(members[i].value)
  {
    seq(|members|, i requires 0 <= i < |members| => SortKeys(members[i].value))
  }

  function DroppedOf(members: seq<Member>): (r: seq<Json>)
    ensures |r| == |members| && forall i :: 0 <= i < |members| ==> r[i] == DropProto(members[i].value)
  {
    seq(|members|, i requires 0 <= i < |members| => DropProto(members[i].value))
  }

  lemma SortedRenders(members: seq<Member>)
    requires DistinctKeys(members)
    ensures Renders(AssignAll(LexSort(SortValues(members))), members, SortedOf(members))
  {
    hide SortKeys;
    SortedObject(members);
    OrderedDistinct(AssignAll(LexSort(SortValues(members))));
  }

  lemma DroppedRenders(members: seq<Member>)
    requires DistinctKeys(members)
    ensures Renders(DropMembers(members), members, DroppedOf(members))
  {
    hide DropProto;
    DropMembersAre(members);
    DroppedDistinct(members);
  }

  /** `entries` are the keys of `members` other than `__proto__`, with the given values. */
  ghost predicate Renders(entries: seq<Member>, members: seq<Member>, values: seq<Json>) {
    && |values| == |members|
    && DistinctKeys(entries)
    && forall n :: n in entries <==>
         exists i :: 0 <= i < |members| && members[i].key != PROTO && n == Member(members[i].key, values[i])
  }

  lemma TableWithin(p: seq<Member>, q: seq<Member>, members: seq<Member>, v: seq<Json>, w: seq<Json>)
    requires Renders(p, members, v) && Renders(q, members, w)
    requires forall i :: 0 <= i < |members| ==> Meaning(v[i]) == Meaning(w[i])
    ensures forall key :: key in Table(p) ==> key in Table(q) && Table(p)[key] == Table(q)[key]
  {
    TableContents(p);
    TableContents(q);
    forall key | key in Table(p) ensures key in Table(q) && Table(p)[key] == Table(q)[key] {
      var k :| 0 <= k < |p| && p[k].key == key;
      assert p[k] in p;
      var i :| 0 <= i < |members| && members[i].key != PROTO && p[k] == Member(members[i].key, v[i]);
      var d := Member(members[i].key, w[i]);
      assert d in q;
      var l :| 0 <= l < |q| && q[l] == d;
    }
  }

  lemma OrderedDistinct(members: seq<Member>)
    requires Ordered(members)
    ensures DistinctKeys(members)
  {
    forall i, k | 0 <= i < k < |members| ensures members[i].key != members[k].key {
      EnumIrreflexive(members[i].key);
    }
  }

  lemma {:induction false} DroppedDistinct(members: seq<Member>)
    requires DistinctKeys(members)
    ensures DistinctKeys(DropMembers(members))
  {
    if members == [] {
    } else {
      var rest := members[1..];
      DroppedDistinct(rest);
      DropMembersAre(rest);
      forall k | 0 <= k < |DropMembers(rest)| ensures DropMembers(rest)[k].key != members[0].key {
        assert DropMembers(rest)[k] in DropMembers(rest);
        var i :| 0 <= i < |rest| && rest[i].key == DropMembers(rest)[k].key;
        assert members[i + 1] == rest[i];
      }
    }
  }

  // ----- one sorted form for each value

  lemma {:induction false} OrderedUnique(m: seq<Member>, n: seq<Member>)
    requires Ordered(m) && Ordered(n)
    requires forall x :: x in m <==> x in n
    ensures m == n
  {
    assert n != [] ==> n[0] in n;
    if m == [] {
    } else {
      assert m[0] in m && m[0] in n;
      HeadsAgree(m, n);
      OrderedTail(m);
      OrderedTail(n);
      OrderedUnique(m[1..], n[1..]);
      assert m == [m[0]] + m[1..] && n == [n[0]] + n[1..];
    }
  }

  lemma HeadsAgree(m: seq<Member>, n: seq<Member>)
    requires Ordered(m) && Ordered(n) && m != [] && n != [] && m[0] in n && n[0] in m
    ensures m[0] == n[0]
  {
    var k :| 0 <= k < |n| && n[k] == m[0];
    var l :| 0 <= l < |m| && m[l] == n[0];
    if k > 0 && l > 0 {
      EnumTransitive(m[0].key, m[l].key, m[0].key);
      EnumIrreflexive(m[0].key);
      assert false;
    }
  }

  lemma OrderedTail(m: seq<Member>)
    requires Ordered(m) && m != []
    ensures Ordered(m[1..])
    ensures forall x :: x in m[1..] <==> x in m && x != m[0]
  {
    assert m == [m[0]] + m[1..];
    forall x | x in m[1..] ensures x != m[0] {
      var i :| 0 <= i < |m[1..]| && m[1..][i] == x;
      EnumIrreflexive(m[0].key);
    }
  }

  /** A value has one canonical form. */
  lemma {:induction false} CanonicalUnique(a: Json, b: Json)
    requires Canonical(a) && Canonical(b) && Meaning(a) == Meaning(b)
    ensures a == b
    decreases a
  {
    match (a, b)
    case (Arr(x), Arr(y)) =>
      forall i | 0 <= i < |x| ensures x[i] == y[i] {
        assert Meanings(x)[i] == Meanings(y)[i];
        CanonicalUnique(x[i], y[i]);
      }
    case (Obj(m), Obj(n)) =>
      OrderedDistinct(m);
      OrderedDistinct(n);
      forall i, k | 0 <= i < |m| && 0 <= k < |n| && m[i].key == n[k].key ensures m[i] == n[k] {
        TableContents(m);
        TableContents(n);
        CanonicalUnique(m[i].value, n[k].value);
      }
      SameElements(m, n);
      OrderedUnique(m, n);
    case _ =>
  }

  lemma SameElements(m: seq<Member>, n: seq<Member>)
    requires DistinctKeys(m) && DistinctKeys(n) && Table(m) == Table(n)
    requires forall i, k :: 0 <= i < |m| && 0 <= k < |n| && m[i].key == n[k].key ==> m[i] == n[k]
    ensures forall x :: x in m <==> x in n
  {
    TableContents(m);
    TableContents(n);
    forall x | x in m ensures x in n {
      var i :| 0 <= i < |m| && m[i] == x;
      var k :| 0 <= k < |n| && n[k].key == x.key;
    }
    forall x | x in n ensures x in m {
      var k :| 0 <= k < |n| && n[k] == x;
      var i :| 0 <= i < |m| && m[i].key == x.key;
    }
  }

  // ----- sorting again

  lemma {:induction false} SortKeysValid(j: Json)
    requires Valid(j)
    ensures Valid(SortKeys(j))
    decreases j
  {
    match j
    case Arr(items) => forall i | 0 <= i < |items| ensures Valid(SortKeys(items[i])) { SortKeysValid(items[i]); }
    case Obj(members) =>
      SortedObject(members);
      var sorted := AssignAll(LexSort(SortValues(members)));
      forall k | 0 <= k < |sorted| ensures Valid(sorted[k].value) {
        assert sorted[k] in sorted;
        var i :| 0 <= i < |members| && members[i].key != PROTO
                 && sorted[k] == Member(members[i].key, SortKeys(members[i].value));
        SortKeysValid(members[i].value);
      }
      OrderedDistinct(sorted);
    case _ =>
  }

  /** Sorting keys twice is sorting them once. */
  lemma SortKeysIdempotent(j: Json)
    requires Valid(j)
    ensures SortKeys(SortKeys(j)) == SortKeys(j)
  {
    var sorted := SortKeys(j);
    SortKeysCanonical(j);
    SortKeysValid(j);
    SortKeysCanonical(sorted);
    SortKeysMeaning(sorted);
    CanonicalProtoFree(sorted);
    ProtoFreeDropsNothing(sorted);
    CanonicalUnique(SortKeys(sorted), sorted);
  }

  /** No member of any object is named `__proto__`. */
  predicate ProtoFree(j: Json) {
    match j
    case Arr(items) => forall i :: 0 <= i < |items| ==> ProtoFree(items[i])
    case Obj(members) => forall i :: 0 <= i < |members| ==> members[i].key != PROTO && ProtoFree(members[i].value)
    case _ => true
  }

  lemma {:induction false} ProtoFreeDropsNothing(j: Json)
    requires ProtoFree(j)
    ensures DropProto(j) == j
    decreases j
  {
    match j
    case Arr(items) =>
      forall i | 0 <= i < |items| ensures DropProto(items[i]) == items[i] { ProtoFreeDropsNothing(items[i]); }
    case Obj(members) =>
      forall i | 0 <= i < |members| ensures DropProto(members[i].value) == members[i].value {
        ProtoFreeDropsNothing(members[i].value);
      }
      MembersDropNothing(members);
    case _ =>
  }

  lemma {:induction false} MembersDropNothing(members: seq<Member>)
    requires forall i :: 0 <= i < |members| ==>
      members[i].key != PROTO && DropProto(members[i].value) == members[i].value
    ensures DropMembers(members) == members
  {
    if members == [] {
    } else {
      MembersDropNothing(members[1..]);
      assert members == [members[0]] + members[1..];
    }
  }

  lemma {:induction false} CanonicalProtoFree(j: Json)
    requires Canonical(j)
    ensures ProtoFree(j)
    decreases j
  {
    match j
    case Arr(items) => forall i | 0 <= i < |items| ensures ProtoFree(items[i]) { CanonicalProtoFree(items[i]); }
    case Obj(members) =>
      forall i | 0 <= i < |members| ensures ProtoFree(members[i].value) { CanonicalProtoFree(members[i].value); }
    case _ =>
  }
}
