/** JSON values and the text `JSON.stringify` prints for them, without white space.

    Texts are sequences of UTF-16 code units. A finite number is represented by the numeral that is
    printed for it. A numeral beyond the range of doubles, such as 1e999, is read as an infinite number,
    and that is printed as `null`. */
module JsonText {
  import opened Wrappers

  type Unit = u: nat | u < 0x1_0000

  type Text = seq<Unit>

  datatype Member = Member(key: Text, value: Json)

  datatype Json =
    | Null
    | Bool(b: bool)
    | Number(numeral: Text)
    | Infinite(negative: bool)
    | Str(text: Text)
    | Arr(items: seq<Json>)
    | Obj(members: seq<Member>)

  const QUOTE: Unit := 0x22
  const BACKSLASH: Unit := 0x5C
  const COMMA: Unit := 0x2C
  const COLON: Unit := 0x3A
  const OPEN_BRACKET: Unit := 0x5B
  const CLOSE_BRACKET: Unit := 0x5D
  const OPEN_BRACE: Unit := 0x7B
  const CLOSE_BRACE: Unit := 0x7D
  const LETTER_N: Unit := 0x6E
  const LETTER_T: Unit := 0x74
  const LETTER_U: Unit := 0x75

  const NULL_TEXT: Text := [0x6E, 0x75, 0x6C, 0x6C]
  const TRUE_TEXT: Text := [0x74, 0x72, 0x75, 0x65]
  const FALSE_TEXT: Text := [0x66, 0x61, 0x6C, 0x73, 0x65]

  /** Digits and the characters `-`, `+`, `.` and `e`. */
  predicate IsNumeralUnit(u: Unit) {
    0x30 <= u <= 0x39 || u == 0x2D || u == 0x2B || u == 0x2E || u == 0x65
  }

  predicate IsNumeral(t: Text) {
    t != [] && forall i :: 0 <= i < |t| ==> IsNumeralUnit(t[i])
  }

  predicate DistinctKeys(members: seq<Member>) {
    forall i, j :: 0 <= i < j < |members| ==> members[i].key != members[j].key
  }

  /** What parsing JSON can yield, infinite numbers included: numerals are numerals and no object repeats
      a key. */
  predicate Valid(j: Json) {
    match j
    case Number(n) => IsNumeral(n)
    case Arr(items) => forall i :: 0 <= i < |items| ==> Valid(items[i])
    case Obj(members) => DistinctKeys(members) && forall i :: 0 <= i < |members| ==> Valid(members[i].value)
    case _ => true
  }

  /** No number is infinite, at any depth. */
  predicate Finite(j: Json) {
    match j
    case Infinite(_) => false
    case Arr(items) => forall i :: 0 <= i < |items| ==> Finite(items[i])
    case Obj(members) => forall i :: 0 <= i < |members| ==> Finite(members[i].value)
    case _ => true
  }

  // ----- strings

  predicate IsHigh(u: Unit) { 0xD800 <= u <= 0xDBFF }

  predicate IsLow(u: Unit) { 0xDC00 <= u <= 0xDFFF }

  function HexDigit(n: nat): Unit
    requires n < 16
  {
    if n < 10 then 0x30 + n else 0x61 + n - 10
  }

  function UnicodeEscape(u: Unit): Text {
    [BACKSLASH, LETTER_U, HexDigit(u / 4096), HexDigit(u / 256 % 16), HexDigit(u / 16 % 16), HexDigit(u % 16)]
  }

  /** The letter of a two-unit escape, if there is one. */
  function ShortEscape(u: Unit): Option<Unit> {
    if u == QUOTE then Some(QUOTE)
    else if u == BACKSLASH then Some(BACKSLASH)
    else if u == 8 then Some(0x62)
    else if u == 12 then Some(0x66)
    else if u == 10 then Some(0x6E)
    else if u == 13 then Some(0x72)
    else if u == 9 then Some(0x74)
    else None
  }

  function EscapeUnit(u: Unit): Text {
    if ShortEscape(u).Some? then [BACKSLASH, ShortEscape(u).value]
    else if u < 0x20 then UnicodeEscape(u)
    else [u]
  }

  /** Quotes, backslashes and control characters are escaped, and so are surrogates without a partner. */
  function Escape(t: Text): Text {
    if t == [] then []
    else if IsHigh(t[0]) && |t| > 1 && IsLow(t[1]) then t[..2] + Escape(t[2..])
    else if IsHigh(t[0]) || IsLow(t[0]) then UnicodeEscape(t[0]) + Escape(t[1..])
    else EscapeUnit(t[0]) + Escape(t[1..])
  }

  function Quoted(t: Text): Text { [QUOTE] + Escape(t) + [QUOTE] }

  // ----- printing

  function Stringify(j: Json): Text
    decreases j, 1
  {
    match j
    case Null => NULL_TEXT
    case Bool(b) => if b then TRUE_TEXT else FALSE_TEXT
    case Number(n) => n
    case Infinite(_) => NULL_TEXT
    case Str(t) => Quoted(t)
    case Arr(items) => [OPEN_BRACKET] + Items(items)
    case Obj(members) => [OPEN_BRACE] + Members(members)
  }

  function Items(items: seq<Json>): Text
    decreases items, 0
  {
    if items == [] then [CLOSE_BRACKET]
    else if |items| == 1 then Stringify(items[0]) + [CLOSE_BRACKET]
    else Stringify(items[0]) + [COMMA] + Items(items[1..])
  }

  function Members(members: seq<Member>): Text
    decreases members, 0
  {
    if members == [] then [CLOSE_BRACE]
    else
      var m := members[0];
      var first := Quoted(m.key) + [COLON] + Stringify(m.value);
      if |members| == 1 then first + [CLOSE_BRACE] else first + [COMMA] + Members(members[1..])
  }

  // ----- parsing back

  datatype Parsed<+T> = Parsed(value: T, rest: Text)

  function HexValue(u: Unit): Option<nat> {
    if 0x30 <= u <= 0x39 then Some(u - 0x30)
    else if 0x61 <= u <= 0x66 then Some(u - 0x61 + 10)
    else None
  }

  function ParseHex(z: Text): (r: Option<Parsed<Unit>>)
    ensures r.Some? ==> |r.value.rest| < |z|
  {
    if |z| < 4 || HexValue(z[0]).None? || HexValue(z[1]).None? || HexValue(z[2]).None? || HexValue(z[3]).None?
    then None
    else Some(Parsed(HexValue(z[0]).value * 4096 + HexValue(z[1]).value * 256
                     + HexValue(z[2]).value * 16 + HexValue(z[3]).value, z[4..]))
  }

  function Unescaped(u: Unit): Option<Unit> {
    if u == QUOTE || u == BACKSLASH || u == 0x2F then Some(u)
    else if u == 0x62 then Some(8)
    else if u == 0x66 then Some(12)
    else if u == LETTER_N then Some(10)
    else if u == 0x72 then Some(13)
    else if u == LETTER_T then Some(9)
    else None
  }

  /** The string whose escaped form starts here, up to its closing quote. */
  function ParseString(z: Text): (r: Option<Parsed<Text>>)
    ensures r.Some? ==> |r.value.rest| < |z|
    decreases |z|
  {
    if z == [] then None
    else if z[0] == QUOTE then Some(Parsed([], z[1..]))
    else if z[0] != BACKSLASH then
      match ParseString(z[1..])
      case None => None
      case Some(p) => Some(Parsed([z[0]] + p.value, p.rest))
    else if |z| == 1 then None
    else if z[1] == LETTER_U then
      match ParseHex(z[2..])
      case None => None
      case Some(h) =>
        match ParseString(h.rest)
        case None => None
        case Some(p) => Some(Parsed([h.value] + p.value, p.rest))
    else if Unescaped(z[1]).None? then None
    else match ParseString(z[2..])
      case None => None
      case Some(p) => Some(Parsed([Unescaped(z[1]).value] + p.value, p.rest))
  }

  lemma HexDigits(n: nat)
    requires n < 16
    ensures HexValue(HexDigit(n)) == Some(n)
  {}

  lemma HexSum(u: Unit)
    ensures u / 4096 < 16
    ensures u == u / 4096 * 4096 + u / 256 % 16 * 256 + u / 16 % 16 * 16 + u % 16
  {
    var a, b := u / 16, u / 256;
    assert u == 16 * a + u % 16;
    assert a == 16 * b + a % 16;
    assert b == 16 * (u / 4096) + b % 16;
  }

  lemma HexRoundTrip(u: Unit, rest: Text)
    ensures ParseHex(UnicodeEscape(u)[2..] + rest) == Some(Parsed(u, rest))
  {
    hide HexDigit, HexValue;
    var z := UnicodeEscape(u)[2..] + rest;
    assert z[4..] == rest;
    HexSum(u);
    HexDigits(u / 4096);
    HexDigits(u / 256 % 16);
    HexDigits(u / 16 % 16);
    HexDigits(u % 16);
  }

  /** Unescaping the escaped form of a string, up to the closing quote, restores it. */
  lemma {:induction false} StringRoundTrip(t: Text, rest: Text)
    ensures ParseString(Escape(t) + [QUOTE] + rest) == Some(Parsed(t, rest))
    decreases |t|
  {
    hide ParseString, UnicodeEscape, EscapeUnit;
    if t == [] {
      EmptyString(rest);
      assert Escape(t) + [QUOTE] + rest == [QUOTE] + rest;
    } else if IsHigh(t[0]) && |t| > 1 && IsLow(t[1]) {
      StringRoundTrip(t[2..], rest);
      PairRoundTrip(t, Escape(t[2..]) + [QUOTE] + rest, rest);
      assert Escape(t) + [QUOTE] + rest == [t[0]] + ([t[1]] + (Escape(t[2..]) + [QUOTE] + rest));
    } else {
      StringRoundTrip(t[1..], rest);
      UnitRoundTrip(t, Escape(t[1..]) + [QUOTE] + rest, rest);
      assert Escape(t) + [QUOTE] + rest == EscapedHead(t) + (Escape(t[1..]) + [QUOTE] + rest);
    }
  }

  /** What the first unit of a text is escaped to when it does not start a surrogate pair. */
  function EscapedHead(t: Text): Text
    requires t != []
  {
    if IsHigh(t[0]) || IsLow(t[0]) then UnicodeEscape(t[0]) else EscapeUnit(t[0])
  }

  lemma EmptyString(rest: Text)
    ensures ParseString([QUOTE] + rest) == Some(Parsed([], rest))
  {
    assert ([QUOTE] + rest)[1..] == rest;
  }

  lemma PairRoundTrip(t: Text, tail: Text, rest: Text)
    requires |t| > 1 && IsHigh(t[0]) && IsLow(t[1])
    requires ParseString(tail) == Some(Parsed(t[2..], rest))
    ensures ParseString([t[0]] + ([t[1]] + tail)) == Some(Parsed(t, rest))
  {
    RawUnit(t[1], tail);
    RawUnit(t[0], [t[1]] + tail);
    assert [t[0]] + ([t[1]] + t[2..]) == t;
  }

  lemma UnitRoundTrip(t: Text, tail: Text, rest: Text)
    requires t != [] && ParseString(tail) == Some(Parsed(t[1..], rest))
    ensures ParseString(EscapedHead(t) + tail) == Some(Parsed(t, rest))
  {
    assert [t[0]] + t[1..] == t;
    if IsHigh(t[0]) || IsLow(t[0]) || (ShortEscape(t[0]).None? && t[0] < 0x20) {
      EscapedUnit(t[0], tail);
    } else if ShortEscape(t[0]).Some? {
      assert ([BACKSLASH, ShortEscape(t[0]).value] + tail)[2..] == tail;
    } else {
      RawUnit(t[0], tail);
    }
  }

  lemma RawUnit(u: Unit, tail: Text)
    requires u != QUOTE && u != BACKSLASH
    ensures ParseString([u] + tail) ==
      match ParseString(tail) case None => None case Some(p) => Some(Parsed([u] + p.value, p.rest))
  {
    assert ([u] + tail)[1..] == tail;
  }

  lemma EscapedUnit(u: Unit, tail: Text)
    ensures ParseString(UnicodeEscape(u) + tail) ==
      match ParseString(tail) case None => None case Some(p) => Some(Parsed([u] + p.value, p.rest))
  {
    var z := UnicodeEscape(u) + tail;
    assert z[2..] == UnicodeEscape(u)[2..] + tail;
    HexRoundTrip(u, tail);
  }

  /** The longest prefix of numeral characters. */
  function NumeralLength(z: Text): (n: nat)
    ensures n <= |z|
  {
    if z == [] || !IsNumeralUnit(z[0]) then 0 else 1 + NumeralLength(z[1..])
  }

  function ParseValue(z: Text): (r: Option<Parsed<Json>>)
    ensures r.Some? ==> |r.value.rest| < |z|
    decreases |z|, 1
  {
    if z == [] then None
    else if z[0] == QUOTE then
      match ParseString(z[1..]) case None => None case Some(p) => Some(Parsed(Str(p.value), p.rest))
    else if z[0] == OPEN_BRACKET then
      if |z| > 1 && z[1] == CLOSE_BRACKET then Some(Parsed(Arr([]), z[2..]))
      else match ParseItems(z[1..]) case None => None case Some(p) => Some(Parsed(Arr(p.value), p.rest))
    else if z[0] == OPEN_BRACE then
      if |z| > 1 && z[1] == CLOSE_BRACE then Some(Parsed(Obj([]), z[2..]))
      else match ParseMembers(z[1..]) case None => None case Some(p) => Some(Parsed(Obj(p.value), p.rest))
    else if NULL_TEXT <= z then Some(Parsed(Null, z[4..]))
    else if TRUE_TEXT <= z then Some(Parsed(Bool(true), z[4..]))
    else if FALSE_TEXT <= z then Some(Parsed(Bool(false), z[5..]))
    else if IsNumeralUnit(z[0]) then Some(Parsed(Number(z[..NumeralLength(z)]), z[NumeralLength(z)..]))
    else None
  }

  function ParseItems(z: Text): (r: Option<Parsed<seq<Json>>>)
    ensures r.Some? ==> |r.value.rest| < |z|
    decreases |z|, 2
  {
    match ParseValue(z)
    case None => None
    case Some(p) =>
      if p.rest == [] then None
      else if p.rest[0] == CLOSE_BRACKET then Some(Parsed([p.value], p.rest[1..]))
      else if p.rest[0] == COMMA then
        match ParseItems(p.rest[1..]) case None => None case Some(q) => Some(Parsed([p.value] + q.value, q.rest))
      else None
  }

  function ParseMembers(z: Text): (r: Option<Parsed<seq<Member>>>)
    ensures r.Some? ==> |r.value.rest| < |z|
    decreases |z|, 2
  {
    if z == [] || z[0] != QUOTE then None
    else match ParseString(z[1..])
      case None => None
      case Some(k) =>
        if k.rest == [] || k.rest[0] != COLON then None
        else match ParseValue(k.rest[1..])
          case None => None
          case Some(p) =>
            var m := Member(k.value, p.value);
            if p.rest == [] then None
            else if p.rest[0] == CLOSE_BRACE then Some(Parsed([m], p.rest[1..]))
            else if p.rest[0] == COMMA then
              match ParseMembers(p.rest[1..]) case None => None case Some(q) => Some(Parsed([m] + q.value, q.rest))
            else None
  }

  // ----- round trip

  /** The value that is read back from the text of a value: infinite numbers have become null. */
  function ReadBack(j: Json): Json
    decreases j, 1
  {
    match j
    case Infinite(_) => Null
    case Arr(items) => Arr(ReadItems(items))
    case Obj(members) => Obj(ReadMembers(members))
    case _ => j
  }

  function ReadItems(items: seq<Json>): (r: seq<Json>)
    ensures |r| == |items| && forall i :: 0 <= i < |items| ==> r[i] == ReadBack(items[i])
    decreases items, 0
  {
    if items == [] then [] else [ReadBack(items[0])] + ReadItems(items[1..])
  }

  function ReadMembers(members: seq<Member>): (r: seq<Member>)
    ensures |r| == |members|
    ensures forall i :: 0 <= i < |members| ==> r[i] == Member(members[i].key, ReadBack(members[i].value))
    decreases members, 0
  {
    if members == [] then []
    else [Member(members[0].key, ReadBack(members[0].value))] + ReadMembers(members[1..])
  }

  lemma {:induction false} FiniteReadsBack(j: Json)
    requires Finite(j)
    ensures ReadBack(j) == j
    decreases j
  {
    match j
    case Arr(items) =>
      forall i | 0 <= i < |items| ensures ReadBack(items[i]) == items[i] { FiniteReadsBack(items[i]); }
      assert ReadItems(items) == items;
    case Obj(members) =>
      forall i | 0 <= i < |members| ensures ReadBack(members[i].value) == members[i].value {
        FiniteReadsBack(members[i].value);
      }
      assert ReadMembers(members) == members;
    case _ =>
  }

  /** A value's text is followed by nothing that could continue a numeral. */
  predicate Delimited(rest: Text) { rest == [] || !IsNumeralUnit(rest[0]) }

  lemma {:induction false} NumeralEnds(n: Text, rest: Text)
    requires (forall i :: 0 <= i < |n| ==> IsNumeralUnit(n[i])) && Delimited(rest)
    ensures NumeralLength(n + rest) == |n|
  {
    if n == [] {
      assert n + rest == rest;
    } else {
      assert (n + rest)[1..] == n[1..] + rest;
      NumeralEnds(n[1..], rest);
    }
  }

  /** Parsing the text of a value restores it, but for infinite numbers, which come back as null. */
  lemma {:induction false} ValueRoundTrip(j: Json, rest: Text)
    requires Valid(j) && Delimited(rest)
    ensures ParseValue(Stringify(j) + rest) == Some(Parsed(ReadBack(j), rest))
    decreases j, 1
  {
    hide ParseItems, ParseMembers, Items, Members, ParseString, Escape;
    var z := Stringify(j) + rest;
    match j
    case Null => assert NULL_TEXT <= z && z[4..] == rest;
    case Infinite(_) => assert NULL_TEXT <= z && z[4..] == rest;
    case Bool(b) =>
      if b { assert TRUE_TEXT <= z && z[4..] == rest; } else { assert FALSE_TEXT <= z && z[5..] == rest; }
    case Number(n) =>
      NumeralEnds(n, rest);
      assert z[0] == n[0] && z[..|n|] == n && z[|n|..] == rest;
    case Str(t) =>
      assert z[1..] == Escape(t) + [QUOTE] + rest;
      StringRoundTrip(t, rest);
    case Arr(items) =>
      if items != [] {
        ItemsRoundTrip(items, rest);
      }
      ArrayRoundTrip(items, rest);
    case Obj(members) =>
      if members != [] {
        MembersRoundTrip(members, rest);
      }
      ObjectRoundTrip(members, rest);
  }

  lemma ArrayRoundTrip(items: seq<Json>, rest: Text)
    requires Valid(Arr(items))
    requires items != [] ==> ParseItems(Items(items) + rest) == Some(Parsed(ReadItems(items), rest))
    ensures ParseValue(Stringify(Arr(items)) + rest) == Some(Parsed(ReadBack(Arr(items)), rest))
  {
    hide ParseItems;
    var z := Stringify(Arr(items)) + rest;
    assert z[1..] == Items(items) + rest;
    if items == [] {
      assert z[2..] == rest;
    } else {
      StartsValue(items[0]);
      assert z[1] == Stringify(items[0])[0];
    }
  }

  lemma ObjectRoundTrip(members: seq<Member>, rest: Text)
    requires members != [] ==> ParseMembers(Members(members) + rest) == Some(Parsed(ReadMembers(members), rest))
    ensures ParseValue(Stringify(Obj(members)) + rest) == Some(Parsed(ReadBack(Obj(members)), rest))
  {
    hide ParseMembers;
    var z := Stringify(Obj(members)) + rest;
    assert z[1..] == Members(members) + rest;
    if members == [] {
      assert z[2..] == rest;
    } else {
      assert z[1] == QUOTE;
    }
  }

  /** No value's text starts with a closing bracket. */
  lemma StartsValue(j: Json)
    requires Valid(j)
    ensures Stringify(j) != [] && Stringify(j)[0] != CLOSE_BRACKET
  {}

  lemma {:induction false} ItemsRoundTrip(items: seq<Json>, rest: Text)
    requires items != [] && forall i :: 0 <= i < |items| ==> Valid(items[i])
    ensures ParseItems(Items(items) + rest) == Some(Parsed(ReadItems(items), rest))
    decreases items, 0
  {
    hide ParseValue, Stringify;
    var first := items[0];
    if |items| == 1 {
      assert Items(items) + rest == Stringify(first) + ([CLOSE_BRACKET] + rest);
      ValueRoundTrip(first, [CLOSE_BRACKET] + rest);
      assert ([CLOSE_BRACKET] + rest)[1..] == rest && ReadItems(items) == [ReadBack(first)];
    } else {
      var tail := Items(items[1..]) + rest;
      assert Items(items) + rest == Stringify(first) + ([COMMA] + tail);
      ValueRoundTrip(first, [COMMA] + tail);
      ItemsRoundTrip(items[1..], rest);
      assert ([COMMA] + tail)[1..] == tail;
    }
  }

  lemma {:induction false} MembersRoundTrip(members: seq<Member>, rest: Text)
    requires members != [] && forall i :: 0 <= i < |members| ==> Valid(members[i].value)
    ensures ParseMembers(Members(members) + rest) == Some(Parsed(ReadMembers(members), rest))
    decreases members, 0
  {
    hide ParseMembers, ParseValue, Stringify, ReadBack, Quoted, Members, MemberText;
    var m := members[0];
    var read := Member(m.key, ReadBack(m.value));
    if |members| == 1 {
      var tail := [CLOSE_BRACE] + rest;
      ValueRoundTrip(m.value, tail);
      MemberStep(read, Stringify(m.value), tail);
      SameMemberText(m, read, Stringify(m.value));
      LastMemberText(members, rest);
      assert tail[1..] == rest && ReadMembers(members) == [read];
    } else {
      var more := Members(members[1..]) + rest;
      var tail := [COMMA] + more;
      ValueRoundTrip(m.value, tail);
      MembersRoundTrip(members[1..], rest);
      MemberStep(read, Stringify(m.value), tail);
      SameMemberText(m, read, Stringify(m.value));
      FirstMemberText(members, rest);
      assert tail[1..] == more;
    }
  }

  function MemberText(m: Member, valueText: Text): Text { Quoted(m.key) + [COLON] + valueText }

  lemma SameMemberText(m: Member, n: Member, valueText: Text)
    requires m.key == n.key
    ensures MemberText(m, valueText) == MemberText(n, valueText)
  {}

  lemma LastMemberText(members: seq<Member>, rest: Text)
    requires |members| == 1
    ensures Members(members) + rest
         == MemberText(members[0], Stringify(members[0].value)) + ([CLOSE_BRACE] + rest)
  {
    hide Quoted, Stringify;
  }

  lemma FirstMemberText(members: seq<Member>, rest: Text)
    requires |members| > 1
    ensures Members(members) + rest
         == MemberText(members[0], Stringify(members[0].value)) + ([COMMA] + (Members(members[1..]) + rest))
  {
    hide Quoted, Stringify;
  }

  /** What parsing members comes to once the first one has been read. */
  function AfterMember(m: Member, tail: Text): Option<Parsed<seq<Member>>> {
    if tail == [] then None
    else if tail[0] == CLOSE_BRACE then Some(Parsed([m], tail[1..]))
    else if tail[0] == COMMA then
      match ParseMembers(tail[1..]) case None => None case Some(q) => Some(Parsed([m] + q.value, q.rest))
    else None
  }

  lemma MemberStep(m: Member, valueText: Text, tail: Text)
    requires ParseValue(valueText + tail) == Some(Parsed(m.value, tail))
    ensures ParseMembers(MemberText(m, valueText) + tail) == AfterMember(m, tail)
  {
    hide ParseValue, ParseString, Escape;
    var z := MemberText(m, valueText) + tail;
    var afterKey := [COLON] + (valueText + tail);
    assert z[1..] == Escape(m.key) + [QUOTE] + afterKey;
    assert afterKey[1..] == valueText + tail;
    StringRoundTrip(m.key, afterKey);
  }

  /** Infinite numbers are printed as null is. */
  lemma {:induction false} ReadBackPrints(j: Json)
    ensures Stringify(ReadBack(j)) == Stringify(j)
    decreases j, 1
  {
    match j
    case Arr(items) => ReadItemsPrint(items);
    case Obj(members) => ReadMembersPrint(members);
    case _ =>
  }

  lemma {:induction false} ReadItemsPrint(items: seq<Json>)
    ensures Items(ReadItems(items)) == Items(items)
    decreases items, 0
  {
    if items == [] {
    } else {
      ReadBackPrints(items[0]);
      ReadItemsPrint(items[1..]);
      assert ReadItems(items)[1..] == ReadItems(items[1..]);
    }
  }

  lemma {:induction false} ReadMembersPrint(members: seq<Member>)
    ensures Members(ReadMembers(members)) == Members(members)
    decreases members, 0
  {
    if members == [] {
    } else {
      ReadBackPrints(members[0].value);
      ReadMembersPrint(members[1..]);
      assert ReadMembers(members)[1..] == ReadMembers(members[1..]);
    }
  }

  /** Two values print the same exactly when they are the same but for infinite numbers, read as null. */
  lemma SameTextIff(a: Json, b: Json)
    requires Valid(a) && Valid(b)
    ensures Stringify(a) == Stringify(b) <==> ReadBack(a) == ReadBack(b)
  {
    ReadBackPrints(a);
    ReadBackPrints(b);
    ValueRoundTrip(a, []);
    ValueRoundTrip(b, []);
    assert Stringify(a) + [] == Stringify(a) && Stringify(b) + [] == Stringify(b);
  }

  /** The value of a whole text (`JSON.parse`). */
  function Received(z: Text): Option<Json> {
    match ParseValue(z)
    case None => None
    case Some(p) => if p.rest == [] then Some(p.value) else None
  }

  lemma ReceivedIsReadBack(j: Json)
    requires Valid(j)
    ensures Received(Stringify(j)) == Some(ReadBack(j))
  {
    ValueRoundTrip(j, []);
    assert Stringify(j) + [] == Stringify(j);
  }
}
