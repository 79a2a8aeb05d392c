/** `parseRecoveryFingerprints` and `compareRecoveryFingerprints` (scripts/recovery-contract.ts).

    The list of critical tables is a parameter; the theorems need its names to be distinct and free of
    white space. */
module RecoveryFingerprints {
  import opened Wrappers
  import opened ReleaseControls

  const MAX_SAFE_COUNT: nat := 9007199254740991

  datatype Fingerprint = Fingerprint(table: string, rowCount: nat, sha256: string)

  datatype ParseError = InvalidRow | CountTooLarge | TableOmitted

  // ----- text

  /** White space as `String.prototype.trim` sees it. */
  predicate IsSpace(c: char) {
    var u := c as int;
    || 0x09 <= u <= 0x0D || u == 0x20 || u == 0xA0 || u == 0x1680 || 0x2000 <= u <= 0x200A
    || u == 0x2028 || u == 0x2029 || u == 0x202F || u == 0x205F || u == 0x3000 || u == 0xFEFF
  }

  function TrimStart(s: string): string {
    if s != "" && IsSpace(s[0]) then TrimStart(s[1..]) else s
  }

  function TrimEnd(s: string): string {
    if s != "" && IsSpace(s[|s| - 1]) then TrimEnd(s[..|s| - 1]) else s
  }

  function Trim(s: string): string { TrimEnd(TrimStart(s)) }

  /** Splitting at `\n` or `\r\n`; `current` is the line read so far. */
  function SplitLines(s: string, current: string): seq<string>
    decreases |s|
  {
    if s == "" then [current]
    else if s[0] == '\n' then [current] + SplitLines(s[1..], "")
    else if |s| > 1 && s[0] == '\r' && s[1] == '\n' then [current] + SplitLines(s[2..], "")
    else SplitLines(s[1..], current + [s[0]])
  }

  function SplitTabs(s: string, current: string): (r: seq<string>)
    ensures r != []
    decreases |s|
  {
    if s == "" then [current]
    else if s[0] == '\t' then [current] + SplitTabs(s[1..], "")
    else SplitTabs(s[1..], current + [s[0]])
  }

  function NonEmpty(lines: seq<string>): seq<string> {
    if lines == [] then []
    else (if lines[0] == "" then [] else [lines[0]]) + NonEmpty(lines[1..])
  }

  function Lines(output: string): seq<string> { NonEmpty(SplitLines(Trim(output), "")) }

  predicate AllDigits(s: string) { s != "" && forall i :: 0 <= i < |s| ==> '0' <= s[i] <= '9' }

  predicate IsDigest(s: string) { |s| == 64 && forall i :: 0 <= i < |s| ==> '0' <= s[i] <= '9' || 'a' <= s[i] <= 'f' }

  function DecimalValue(s: string): nat
    requires forall i :: 0 <= i < |s| ==> '0' <= s[i] <= '9'
  {
    if s == "" then 0 else 10 * DecimalValue(s[..|s| - 1]) + (s[|s| - 1] - '0') as nat
  }

  // ----- parsing

  /** The fields of a row with a known table, a numeral and a digest. */
  predicate RowShape(tables: seq<string>, line: string) {
    var fields := SplitTabs(line, "");
    |fields| == 3 && fields[0] in tables && AllDigits(fields[1]) && IsDigest(fields[2])
  }

  function RowOf(tables: seq<string>, line: string): (row: Fingerprint)
    requires RowShape(tables, line)
    ensures row.table == TableOf(line) && row.table in tables
  {
    var fields := SplitTabs(line, "");
    Fingerprint(fields[0], DecimalValue(fields[1]), fields[2])
  }

  function Collect(tables: seq<string>, lines: seq<string>, results: map<string, Fingerprint>)
    : Result<map<string, Fingerprint>, ParseError>
  {
    if lines == [] then Ok(results)
    else if !RowShape(tables, lines[0]) || RowOf(tables, lines[0]).table in results then Err(InvalidRow)
    else
      var row := RowOf(tables, lines[0]);
      if row.rowCount > MAX_SAFE_COUNT then Err(CountTooLarge)
      else Collect(tables, lines[1..], results[row.table := row])
  }

  function Parse(tables: seq<string>, output: string): Result<map<string, Fingerprint>, ParseError> {
    match Collect(tables, Lines(output), map[])
    case Err(e) => Err(e)
    case Ok(results) => if |results| != |tables| then Err(TableOmitted) else Ok(results)
  }

  method ParseRecoveryFingerprints(tables: seq<string>, output: string)
    returns (r: Result<map<string, Fingerprint>, ParseError>)
    ensures r == Parse(tables, output)
  {
    var lines := Lines(output);
    var results: map<string, Fingerprint> := map[];
    assert lines[0..] == lines;
    for i := 0 to |lines|
      invariant Collect(tables, lines, map[]) == Collect(tables, lines[i..], results)
    {
      var line := lines[i];
      assert lines[i..][0] == line && lines[i..][1..] == lines[i + 1..];
      if !RowShape(tables, line) || RowOf(tables, line).table in results {
        return Err(InvalidRow);
      }
      var row := RowOf(tables, line);
      if row.rowCount > MAX_SAFE_COUNT {
        return Err(CountTooLarge);
      }
      results := results[row.table := row];
    }
    if |results| != |tables| {
      return Err(TableOmitted);
    }
    return Ok(results);
  }

  // ----- what is accepted

  predicate GoodRow(tables: seq<string>, line: string) {
    RowShape(tables, line) && RowOf(tables, line).rowCount <= MAX_SAFE_COUNT
  }

  ghost predicate GoodRows(tables: seq<string>, lines: seq<string>) {
    forall line :: line in lines ==> GoodRow(tables, line)
  }

  function TableOf(line: string): string { SplitTabs(line, "")[0] }

  function TablesOf(lines: seq<string>): (r: seq<string>)
    ensures |r| == |lines| && forall i :: 0 <= i < |lines| ==> r[i] == TableOf(lines[i])
  {
    seq(|lines|, i requires 0 <= i < |lines| => TableOf(lines[i]))
  }

  /** Every row is stored under its own table. */
  ghost predicate Holds(tables: seq<string>, lines: seq<string>, results: map<string, Fingerprint>)
    requires GoodRows(tables, lines)
  {
    forall line :: line in lines ==>
      RowOf(tables, line).table in results && results[RowOf(tables, line).table] == RowOf(tables, line)
  }

  lemma {:induction false} CollectIff(tables: seq<string>, lines: seq<string>, before: map<string, Fingerprint>)
    ensures Collect(tables, lines, before).Ok? <==>
      && GoodRows(tables, lines)
      && Distinct(TablesOf(lines))
      && forall t :: t in TablesOf(lines) ==> t !in before
    decreases |lines|
  {
    hide RowShape, RowOf, TableOf, Distinct, TablesOf, GoodRows;
    if lines == [] {
      NothingListed(tables);
    } else {
      var line, rest := lines[0], lines[1..];
      assert lines == [line] + rest;
      FirstListed(tables, line, rest);
      if GoodRow(tables, line) && TableOf(line) !in before {
        CollectIff(tables, rest, before[TableOf(line) := RowOf(tables, line)]);
        DistinctCons(TableOf(line), TablesOf(rest));
      } else {
        assert TableOf(line) in TablesOf(lines);
      }
    }
  }

  lemma NothingListed(tables: seq<string>)
    ensures TablesOf([]) == [] && GoodRows(tables, []) && Distinct(TablesOf([]))
  {}

  lemma FirstListed(tables: seq<string>, line: string, rest: seq<string>)
    ensures TablesOf([line] + rest) == [TableOf(line)] + TablesOf(rest)
    ensures GoodRows(tables, [line] + rest) <==> GoodRow(tables, line) && GoodRows(tables, rest)
    ensures forall t :: t in TablesOf([line] + rest) <==> t == TableOf(line) || t in TablesOf(rest)
  {
    hide GoodRow, TableOf;
    if GoodRows(tables, [line] + rest) {
      assert line in [line] + rest;
      forall l | l in rest ensures GoodRow(tables, l) { assert l in [line] + rest; }
    }
    assert TablesOf([line] + rest) == [TableOf(line)] + TablesOf(rest);
  }

  /** What the filled map holds: the earlier entries, and every row under its own table. */
  lemma {:induction false} CollectHolds(tables: seq<string>, lines: seq<string>, before: map<string, Fingerprint>)
    requires Collect(tables, lines, before).Ok? && GoodRows(tables, lines)
    ensures var results := Collect(tables, lines, before).value;
      && |results| == |before| + |lines|
      && (forall t :: t in before ==> t in results && results[t] == before[t])
      && (forall t :: t in results <==> t in before || t in TablesOf(lines))
      && Holds(tables, lines, results)
    decreases |lines|
  {
    hide RowShape, RowOf, TableOf, TablesOf, GoodRows;
    if lines == [] {
      NothingListed(tables);
    } else {
      var line, rest := lines[0], lines[1..];
      assert lines == [line] + rest;
      FirstListed(tables, line, rest);
      CollectHolds(tables, rest, before[TableOf(line) := RowOf(tables, line)]);
      HoldsCons(tables, line, rest, Collect(tables, lines, before).value);
    }
  }

  lemma HoldsCons(tables: seq<string>, line: string, rest: seq<string>, results: map<string, Fingerprint>)
    requires GoodRow(tables, line) && GoodRows(tables, rest) && Holds(tables, rest, results)
    requires TableOf(line) in results && results[TableOf(line)] == RowOf(tables, line)
    ensures GoodRows(tables, [line] + rest) && Holds(tables, [line] + rest, results)
  {
    hide RowShape, RowOf, TableOf;
  }

  lemma DistinctCons(x: string, s: seq<string>)
    ensures Distinct([x] + s) <==> x !in s && Distinct(s)
  {
    var all := [x] + s;
    if Distinct(all) {
      forall i, j | 0 <= i < j < |s| ensures s[i] != s[j] { assert all[i + 1] != all[j + 1]; }
      forall i | 0 <= i < |s| ensures s[i] != x { assert all[0] != all[i + 1]; }
    }
  }

  /** Output is accepted exactly when every row is good and the rows list every table once, in any
      order; each table is then mapped to its row. */
  lemma ParseIff(tables: seq<string>, output: string)
    requires Distinct(tables)
    ensures Parse(tables, output).Ok? <==>
      GoodRows(tables, Lines(output)) && multiset(TablesOf(Lines(output))) == multiset(tables)
    ensures Parse(tables, output).Ok? ==>
      var results := Parse(tables, output).value;
      (forall t :: t in results <==> t in tables) && Holds(tables, Lines(output), results)
  {
    hide Lines, RowOf, RowShape, TableOf;
    var lines := Lines(output);
    CollectIff(tables, lines, map[]);
    if GoodRows(tables, lines) {
      if Collect(tables, lines, map[]).Ok? { CollectHolds(tables, lines, map[]); }
      var names := TablesOf(lines);
      ExactNamesIff(names, tables);
      DistinctIff(names);
      NamesAreTables(tables, lines);
      if Distinct(names) && |names| == |tables| { CoversAll(names, tables); }
      if multiset(names) == multiset(tables) {
        forall t ensures t in names <==> t in tables { assert t in multiset(names) <==> t in multiset(tables); }
      }
    }
  }

  lemma NamesAreTables(tables: seq<string>, lines: seq<string>)
    requires GoodRows(tables, lines)
    ensures forall t :: t in TablesOf(lines) ==> t in tables
  {
    hide TableOf;
    var names := TablesOf(lines);
    forall t | t in names ensures t in tables {
      var i :| 0 <= i < |names| && names[i] == t;
      assert lines[i] in lines;
    }
  }

  lemma CoversAll(names: seq<string>, tables: seq<string>)
    requires Distinct(names) && Distinct(tables) && |names| == |tables|
    requires forall t :: t in names ==> t in tables
    ensures ExactNames(names, tables)
    ensures forall t :: t in names <==> t in tables
  {
    DistinctIff(names);
    DistinctIff(tables);
    var a, b := set t | t in names, set t | t in tables;
    SameSizeSubset(a, b);
    forall t | t in tables ensures t in names { assert t in b && t in a; }
  }

  /** Permuting the rows changes neither acceptance nor the map. */
  lemma RowOrderIsIrrelevant(tables: seq<string>, a: string, b: string)
    requires Distinct(tables) && multiset(Lines(a)) == multiset(Lines(b))
    ensures Parse(tables, a).Ok? <==> Parse(tables, b).Ok?
    ensures Parse(tables, a).Ok? ==> Parse(tables, a) == Parse(tables, b)
  {
    if Parse(tables, a).Ok? { SameRowsSameMap(tables, a, b); }
    if Parse(tables, b).Ok? { SameRowsSameMap(tables, b, a); }
  }

  lemma SameRowsSameMap(tables: seq<string>, a: string, b: string)
    requires Distinct(tables) && multiset(Lines(a)) == multiset(Lines(b)) && Parse(tables, a).Ok?
    ensures Parse(tables, b) == Parse(tables, a)
  {
    hide Lines, RowOf, RowShape, TableOf, Collect, Parse;
    ParseIff(tables, a);
    ParseIff(tables, b);
    var x, y := Lines(a), Lines(b);
    assert |x| == |multiset(x)| == |multiset(y)| == |y|;
    forall line ensures line in x <==> line in y { assert line in multiset(x) <==> line in multiset(y); }
    assert GoodRows(tables, y);
    ListsAllIff(tables, x);
    ListsAllIff(tables, y);
    var p, q := Parse(tables, a).value, Parse(tables, b).value;
    forall t | t in p ensures t in q && q[t] == p[t] {
      var line :| line in x && TableOf(line) == t;
      assert line in y;
    }
    assert p == q;
  }

  /** Listing every table once is listing every table, in as many rows. */
  lemma ListsAllIff(tables: seq<string>, lines: seq<string>)
    requires Distinct(tables) && GoodRows(tables, lines)
    ensures multiset(TablesOf(lines)) == multiset(tables) <==>
      |lines| == |tables| && forall t :: t in tables ==> exists line :: line in lines && TableOf(line) == t
  {
    hide RowOf, RowShape, TableOf;
    var names := TablesOf(lines);
    ExactNamesIff(names, tables);
    NamesAreTables(tables, lines);
    DistinctIff(names);
    DistinctIff(tables);
    if ExactNames(names, tables) {
      forall t | t in tables ensures exists line :: line in lines && TableOf(line) == t {
        var i :| 0 <= i < |names| && names[i] == t;
        assert lines[i] in lines;
      }
    }
    if |lines| == |tables| && forall t :: t in tables ==> exists line :: line in lines && TableOf(line) == t {
      forall t | t in tables ensures t in names {
        var line :| line in lines && TableOf(line) == t;
        var i :| 0 <= i < |lines| && lines[i] == line;
        assert names[i] == t;
      }
      assert (set t | t in names) == (set t | t in tables);
    }
  }

  // ----- printing

  /** The output of the fingerprint query: unaligned rows, tab-separated, each ended by a newline. */
  function DigitsOf(n: nat): string {
    if n < 10 then [('0' as int + n) as char] else DigitsOf(n / 10) + [('0' as int + n % 10) as char]
  }

  function PrintRow(row: Fingerprint): string {
    row.table + "\t" + DigitsOf(row.rowCount) + "\t" + row.sha256
  }

  function Print(rows: seq<Fingerprint>): string {
    if rows == [] then "" else PrintRow(rows[0]) + "\n" + Print(rows[1..])
  }

  ghost predicate Solid(s: string) { s != "" && NoSpace(s) }

  ghost predicate NoSpace(s: string) { forall i :: 0 <= i < |s| ==> !IsSpace(s[i]) }

  /** A row a database returns: a listed table, a safe count, a SHA-256 digest. */
  ghost predicate Proper(tables: seq<string>, row: Fingerprint) {
    row.table in tables && row.rowCount <= MAX_SAFE_COUNT && IsDigest(row.sha256)
  }

  lemma {:induction false} DigitsRoundTrip(n: nat)
    ensures AllDigits(DigitsOf(n)) && DecimalValue(DigitsOf(n)) == n
  {
    if n >= 10 {
      DigitsRoundTrip(n / 10);
      var s := DigitsOf(n);
      assert s[..|s| - 1] == DigitsOf(n / 10);
    } else {
      assert DigitsOf(n)[..0] == "";
      assert DecimalValue("") == 0;
    }
  }

  lemma {:induction false} TabFree(s: string, current: string, rest: string)
    requires forall i :: 0 <= i < |s| ==> s[i] != '\t'
    ensures SplitTabs(s + rest, current) == SplitTabs(rest, current + s)
    decreases |s|
  {
    if s == "" {
      assert s + rest == rest && current + s == current;
    } else {
      assert (s + rest)[1..] == s[1..] + rest;
      TabFree(s[1..], current + [s[0]], rest);
      assert current + [s[0]] + s[1..] == current + s;
    }
  }

  lemma SplitAtTab(s: string, rest: string)
    requires forall i :: 0 <= i < |s| ==> s[i] != '\t'
    ensures SplitTabs(s + "\t" + rest, "") == [s] + SplitTabs(rest, "")
  {
    TabFree(s, "", "\t" + rest);
    assert s + "\t" + rest == s + ("\t" + rest);
    assert ("\t" + rest)[1..] == rest && "" + s == s;
  }

  lemma {:induction false} NewlineFree(s: string, current: string, rest: string)
    requires forall i :: 0 <= i < |s| ==> s[i] != '\n' && s[i] != '\r'
    ensures SplitLines(s + rest, current) == SplitLines(rest, current + s)
    decreases |s|
  {
    if s == "" {
      assert s + rest == rest && current + s == current;
    } else {
      assert (s + rest)[1..] == s[1..] + rest;
      NewlineFree(s[1..], current + [s[0]], rest);
      assert current + [s[0]] + s[1..] == current + s;
    }
  }

  lemma FieldsArePlain(tables: seq<string>, row: Fingerprint)
    requires Proper(tables, row) && forall t :: t in tables ==> Solid(t)
    ensures NoSpace(DigitsOf(row.rowCount)) && NoSpace(row.sha256) && NoSpace(row.table)
  {
    DigitsRoundTrip(row.rowCount);
  }

  lemma NoTab(s: string)
    requires NoSpace(s)
    ensures forall i :: 0 <= i < |s| ==> s[i] != '\t'
  {
    assert IsSpace('\t');
  }

  lemma PrintedRowParses(tables: seq<string>, row: Fingerprint)
    requires Proper(tables, row) && forall t :: t in tables ==> Solid(t)
    ensures GoodRow(tables, PrintRow(row)) && RowOf(tables, PrintRow(row)) == row
  {
    hide IsSpace, DigitsOf, DecimalValue;
    var digits := DigitsOf(row.rowCount);
    FieldsArePlain(tables, row);
    NoTab(row.table);
    NoTab(digits);
    NoTab(row.sha256);
    DigitsRoundTrip(row.rowCount);
    SplitAtTab(row.table, digits + "\t" + row.sha256);
    SplitAtTab(digits, row.sha256);
    TabFree(row.sha256, "", "");
    assert PrintRow(row) == row.table + "\t" + (digits + "\t" + row.sha256);
    assert row.sha256 + "" == row.sha256 && "" + row.sha256 == row.sha256;
    assert SplitTabs(PrintRow(row), "") == [row.table, digits, row.sha256];
  }

  /** A printed row neither starts nor ends with white space, and is one line. */
  ghost predicate OneLine(s: string) {
    s != "" && !IsSpace(s[0]) && !IsSpace(s[|s| - 1]) && forall i :: 0 <= i < |s| ==> s[i] != '\n' && s[i] != '\r'
  }

  lemma PrintedRowIsOneLine(tables: seq<string>, row: Fingerprint)
    requires Proper(tables, row) && forall t :: t in tables ==> Solid(t)
    ensures OneLine(PrintRow(row))
  {
    hide DigitsOf;
    FieldsArePlain(tables, row);
    var s := PrintRow(row);
    var t, d, h := row.table, DigitsOf(row.rowCount), row.sha256;
    assert s[0] == t[0] && s[|s| - 1] == h[63];
    forall i | 0 <= i < |s| ensures s[i] != '\n' && s[i] != '\r' {
      assert s[i] == if i < |t| then t[i] else if i == |t| then '\t'
                     else if i <= |t| + |d| then d[i - |t| - 1] else if i == |t| + |d| + 1 then '\t'
                     else h[i - |t| - |d| - 2];
    }
  }

  /** Lines joined by newlines, without a last newline. */
  function Joined(lines: seq<string>): string
    requires lines != []
  {
    if |lines| == 1 then lines[0] else lines[0] + "\n" + Joined(lines[1..])
  }

  function PrintedRows(rows: seq<Fingerprint>): (r: seq<string>)
    ensures |r| == |rows| && forall i :: 0 <= i < |rows| ==> r[i] == PrintRow(rows[i])
  {
    seq(|rows|, i requires 0 <= i < |rows| => PrintRow(rows[i]))
  }

  lemma {:induction false} PrintIsJoined(rows: seq<Fingerprint>)
    requires rows != []
    ensures Print(rows) == Joined(PrintedRows(rows)) + "\n"
  {
    hide PrintRow;
    var lines := PrintedRows(rows);
    if |rows| == 1 {
      assert Print(rows[1..]) == "";
    } else {
      PrintIsJoined(rows[1..]);
      assert lines[1..] == PrintedRows(rows[1..]);
    }
  }

  lemma {:induction false} JoinedSplits(lines: seq<string>)
    requires lines != [] && forall i :: 0 <= i < |lines| ==> OneLine(lines[i])
    ensures SplitLines(Joined(lines), "") == lines
    ensures Joined(lines) != "" && !IsSpace(Joined(lines)[0]) && !IsSpace(Joined(lines)[|Joined(lines)| - 1])
  {
    hide IsSpace;
    var first := lines[0];
    if |lines| == 1 {
      NewlineFree(first, "", "");
      assert first + "" == first && "" + first == first;
    } else {
      var rest := Joined(lines[1..]);
      JoinedSplits(lines[1..]);
      NewlineFree(first, "", "\n" + rest);
      assert Joined(lines) == first + ("\n" + rest);
      assert ("\n" + rest)[1..] == rest && "" + first == first;
      assert lines == [first] + lines[1..];
    }
  }

  lemma {:induction false} NoneDropped(lines: seq<string>)
    requires forall i :: 0 <= i < |lines| ==> lines[i] != ""
    ensures NonEmpty(lines) == lines
  {
    if lines == [] {
    } else {
      NoneDropped(lines[1..]);
    }
  }

  lemma PrintedLines(tables: seq<string>, rows: seq<Fingerprint>)
    requires forall t :: t in tables ==> Solid(t)
    requires forall row :: row in rows ==> Proper(tables, row)
    ensures Lines(Print(rows)) == PrintedRows(rows)
  {
    hide PrintRow, Proper;
    var lines := PrintedRows(rows);
    if rows == [] {
      assert SplitLines("", "") == [""];
      assert [""][1..] == [];
    } else {
      forall i | 0 <= i < |rows| ensures OneLine(lines[i]) { PrintedRowIsOneLine(tables, rows[i]); }
      PrintIsJoined(rows);
      JoinedSplits(lines);
      NoneDropped(lines);
      TrimPrinted(Joined(lines));
    }
  }

  lemma TrimPrinted(s: string)
    requires s != "" && !IsSpace(s[0]) && !IsSpace(s[|s| - 1])
    ensures Trim(s + "\n") == s
  {
    assert (s + "\n")[0] == s[0];
    assert (s + "\n")[..|s + "\n"| - 1] == s;
    assert TrimEnd(s) == s;
  }

  ghost predicate PrintsAs(tables: seq<string>, line: string, row: Fingerprint) {
    GoodRow(tables, line) && RowOf(tables, line) == row
  }

  /** Printing rows of distinct tables, in any order, then parsing restores them: the output is accepted
      exactly when they are all the tables, and the map then holds each row. */
  lemma PrintThenParse(tables: seq<string>, rows: seq<Fingerprint>, names: seq<string>)
    requires Distinct(tables) && forall t :: t in tables ==> Solid(t)
    requires forall row :: row in rows ==> Proper(tables, row)
    requires |names| == |rows| && forall i :: 0 <= i < |rows| ==> names[i] == rows[i].table
    ensures Parse(tables, Print(rows)).Ok? <==> multiset(names) == multiset(tables)
    ensures Parse(tables, Print(rows)).Ok? ==>
      var results := Parse(tables, Print(rows)).value;
      && (forall t :: t in results <==> t in tables)
      && (forall row :: row in rows ==> row.table in results && results[row.table] == row)
  {
    hide Parse, Lines, PrintRow, RowOf, RowShape, TableOf, Print, Proper;
    var lines := PrintedRows(rows);
    PrintedLines(tables, rows);
    ParseIff(tables, Print(rows));
    forall i | 0 <= i < |rows| ensures PrintsAs(tables, lines[i], rows[i]) { PrintedRowParses(tables, rows[i]); }
    assert TablesOf(lines) == names;
    if Parse(tables, Print(rows)).Ok? {
      forall row | row in rows
        ensures row.table in Parse(tables, Print(rows)).value && Parse(tables, Print(rows)).value[row.table] == row
      {
        var i :| 0 <= i < |rows| && rows[i] == row;
        assert lines[i] in lines;
      }
    }
  }

  // ----- comparing

  datatype CompareError = Missing(table: string) | Mismatch(table: string)

  function Compare(tables: seq<string>, source: map<string, Fingerprint>, target: map<string, Fingerprint>)
    : Result<seq<Fingerprint>, CompareError>
  {
    if tables == [] then Ok([])
    else
      var t := tables[0];
      if t !in source || t !in target then Err(Missing(t))
      else if source[t].rowCount != target[t].rowCount || source[t].sha256 != target[t].sha256 then Err(Mismatch(t))
      else match Compare(tables[1..], source, target)
        case Err(e) => Err(e)
        case Ok(rest) => Ok([Fingerprint(t, target[t].rowCount, target[t].sha256)] + rest)
  }

  ghost predicate Agree(t: string, source: map<string, Fingerprint>, target: map<string, Fingerprint>) {
    t in source && t in target && source[t].rowCount == target[t].rowCount && source[t].sha256 == target[t].sha256
  }

  /** Comparison succeeds exactly when both maps agree on the count and the digest of every table; it
      then lists the agreed values in table order. */
  lemma {:induction false} CompareIff(
    tables: seq<string>, source: map<string, Fingerprint>, target: map<string, Fingerprint>)
    ensures Compare(tables, source, target).Ok? <==> forall t :: t in tables ==> Agree(t, source, target)
    ensures Compare(tables, source, target).Ok? ==>
      var rows := Compare(tables, source, target).value;
      && |rows| == |tables|
      && (forall i :: 0 <= i < |tables| ==> tables[i] in source)
      && (forall i :: 0 <= i < |tables| ==>
            rows[i] == Fingerprint(tables[i], source[tables[i]].rowCount, source[tables[i]].sha256))
  {
    if tables == [] {
    } else {
      var t, rest := tables[0], tables[1..];
      CompareIff(rest, source, target);
      assert tables == [t] + rest;
      if Agree(t, source, target) {
        assert forall u :: u in tables <==> u == t || u in rest;
      } else {
        assert t in tables;
      }
    }
  }

  /** Two parsed outputs compare equal exactly when they parsed to the same map. */
  lemma ParsedOutputsCompare(tables: seq<string>, a: string, b: string)
    requires Distinct(tables) && Parse(tables, a).Ok? && Parse(tables, b).Ok?
    ensures Compare(tables, Parse(tables, a).value, Parse(tables, b).value).Ok?
      <==> Parse(tables, a) == Parse(tables, b)
  {
    hide Parse, Lines, Compare;
    var p, q := Parse(tables, a).value, Parse(tables, b).value;
    CompareIff(tables, p, q);
    ParseIff(tables, a);
    ParseIff(tables, b);
    KeyedByTable(tables, a);
    KeyedByTable(tables, b);
    if forall t :: t in tables ==> Agree(t, p, q) {
      forall t | t in p ensures t in q && p[t] == q[t] { assert Agree(t, p, q); }
      assert p == q;
    }
  }

  lemma KeyedByTable(tables: seq<string>, output: string)
    requires Distinct(tables) && Parse(tables, output).Ok?
    ensures forall t :: t in Parse(tables, output).value ==> Parse(tables, output).value[t].table == t
  {
    hide Parse, Lines, RowOf, RowShape, TableOf;
    ParseIff(tables, output);
    var lines, results := Lines(output), Parse(tables, output).value;
    var names := TablesOf(lines);
    forall t | t in results ensures results[t].table == t {
      assert t in multiset(tables) && t in multiset(names);
      var i :| 0 <= i < |names| && names[i] == t;
      assert lines[i] in lines;
    }
  }
}
