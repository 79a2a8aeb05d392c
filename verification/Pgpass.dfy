/** `escapePgpass` and `pgpassEntry` (scripts/postgres-recovery-connection.ts), read back by the rules of
    the section "The Password File" of the PostgreSQL libpq documentation: fields are separated by colons,
    and a backslash escapes a colon or a backslash. */
module Pgpass {

  /** `value.replace(/c/g, "\\c")`. */
  function EscapeChar(s: string, c: char): string {
    if s == "" then "" else (if s[0] == c then ['\\', c] else [s[0]]) + EscapeChar(s[1..], c)
  }

  /** `escapePgpass`: backslashes first, then colons. */
  function Escape(value: string): string { EscapeChar(EscapeChar(value, '\\'), ':') }

  /** The same in one pass from left to right. */
  function EscapeOnce(s: string): string {
    if s == "" then ""
    else (if s[0] == '\\' || s[0] == ':' then ['\\', s[0]] else [s[0]]) + EscapeOnce(s[1..])
  }

  datatype Connection = Connection(
    hostname: string, port: string, database: string, username: string, password: string)

  function Fields(c: Connection): seq<string> { [c.hostname, c.port, c.database, c.username, c.password] }

  function EscapeAll(fields: seq<string>): (r: seq<string>)
    ensures |r| == |fields| && forall i :: 0 <= i < |fields| ==> r[i] == Escape(fields[i])
  {
    seq(|fields|, i requires 0 <= i < |fields| => Escape(fields[i]))
  }

  function Join(fields: seq<string>): string
    requires fields != []
  {
    if |fields| == 1 then fields[0] else fields[0] + ":" + Join(fields[1..])
  }

  function PgpassEntry(connection: Connection): string { Join(EscapeAll(Fields(connection))) }

  // ----- reading a line back

  /** Splits at unescaped colons; `current` is the field read so far, unescaped. */
  function ReadFields(line: string, current: string): seq<string>
    decreases |line|
  {
    if line == "" then [current]
    else if line[0] == ':' then [current] + ReadFields(line[1..], "")
    else if line[0] == '\\' && |line| > 1 then ReadFields(line[2..], current + [line[1]])
    else ReadFields(line[1..], current + [line[0]])
  }

  // ----- results

  /** Escaping in two passes is escaping in one: the second pass does not touch what the first added. */
  lemma {:induction false} TwoPassesAreOne(s: string)
    ensures Escape(s) == EscapeOnce(s)
  {
    if s == "" {
    } else {
      TwoPassesAreOne(s[1..]);
      var rest := EscapeChar(s[1..], '\\');
      if s[0] == '\\' {
        assert EscapeChar(s, '\\') == "\\\\" + rest;
        assert ("\\\\" + rest)[1..] == "\\" + rest && ("\\" + rest)[1..] == rest;
        assert EscapeChar("\\" + rest, ':') == "\\" + EscapeChar(rest, ':');
        assert Escape(s) == "\\" + ("\\" + EscapeChar(rest, ':'));
      } else {
        assert EscapeChar(s, '\\') == [s[0]] + rest;
        assert ([s[0]] + rest)[1..] == rest;
      }
    }
  }

  /** Reading an escaped field restores it and stops where it ends. */
  lemma {:induction false} ReadEscaped(s: string, rest: string, current: string)
    ensures ReadFields(EscapeOnce(s) + rest, current) == ReadFields(rest, current + s)
    decreases |s|
  {
    if s == "" {
      assert EscapeOnce(s) + rest == rest && current + s == current;
    } else {
      var tail := EscapeOnce(s[1..]) + rest;
      ReadEscaped(s[1..], rest, current + [s[0]]);
      assert current + [s[0]] + s[1..] == current + s;
      if s[0] == '\\' || s[0] == ':' {
        assert EscapeOnce(s) + rest == ['\\', s[0]] + tail;
        assert (['\\', s[0]] + tail)[2..] == tail;
      } else {
        assert EscapeOnce(s) + rest == [s[0]] + tail;
        assert ([s[0]] + tail)[1..] == tail;
      }
    }
  }

  lemma {:induction false} ReadJoined(fields: seq<string>)
    requires fields != []
    ensures ReadFields(Join(EscapeAll(fields)), "") == fields
  {
    var escaped := EscapeAll(fields);
    TwoPassesAreOne(fields[0]);
    assert "" + fields[0] == fields[0];
    if |fields| == 1 {
      ReadEscaped(fields[0], "", "");
      assert EscapeOnce(fields[0]) + "" == EscapeOnce(fields[0]);
    } else {
      assert escaped[1..] == EscapeAll(fields[1..]);
      var rest := Join(escaped[1..]);
      ReadJoined(fields[1..]);
      ReadEscaped(fields[0], ":" + rest, "");
      assert Join(escaped) == EscapeOnce(fields[0]) + (":" + rest);
      assert (":" + rest)[1..] == rest;
      assert fields == [fields[0]] + fields[1..];
    }
  }

  /** Reading an entry back gives the five fields it was made of. */
  lemma EntryRoundTrip(connection: Connection)
    ensures ReadFields(PgpassEntry(connection), "") == Fields(connection)
  {
    ReadJoined(Fields(connection));
  }

  lemma EntryIsInjective(a: Connection, b: Connection)
    requires PgpassEntry(a) == PgpassEntry(b)
    ensures a == b
  {
    hide PgpassEntry;
    EntryRoundTrip(a);
    EntryRoundTrip(b);
    assert a.hostname == Fields(a)[0] && a.port == Fields(a)[1] && a.database == Fields(a)[2];
    assert a.username == Fields(a)[3] && a.password == Fields(a)[4];
    assert b.hostname == Fields(b)[0] && b.port == Fields(b)[1] && b.database == Fields(b)[2];
    assert b.username == Fields(b)[3] && b.password == Fields(b)[4];
  }

  // ----- the file

  /** The lines of a password file: what stands before, between and after newlines. */
  function FileLines(text: string, current: string): seq<string> {
    if text == "" then [current]
    else if text[0] == '\n' then [current] + FileLines(text[1..], "")
    else FileLines(text[1..], current + [text[0]])
  }

  predicate HasNewline(s: string) { exists i :: 0 <= i < |s| && s[i] == '\n' }

  predicate AnyNewline(c: Connection) {
    HasNewline(c.hostname) || HasNewline(c.port) || HasNewline(c.database) || HasNewline(c.username)
    || HasNewline(c.password)
  }

  function Newlines(s: string): nat {
    if s == "" then 0 else (if s[0] == '\n' then 1 else 0) + Newlines(s[1..])
  }

  lemma {:induction false} NewlinesAppend(s: string, t: string)
    ensures Newlines(s + t) == Newlines(s) + Newlines(t)
  {
    if s == "" {
      assert s + t == t;
    } else {
      assert (s + t)[1..] == s[1..] + t;
      NewlinesAppend(s[1..], t);
    }
  }

  lemma {:induction false} NewlinesIff(s: string)
    ensures Newlines(s) == 0 <==> !HasNewline(s)
  {
    if s == "" {
    } else {
      NewlinesIff(s[1..]);
      if HasNewline(s) && s[0] != '\n' {
        var i :| 0 <= i < |s| && s[i] == '\n';
        assert s[1..][i - 1] == '\n';
      }
      if HasNewline(s[1..]) {
        var i :| 0 <= i < |s[1..]| && s[1..][i] == '\n';
        assert s[i + 1] == '\n';
      }
    }
  }

  lemma {:induction false} EscapeKeepsNewlines(s: string)
    ensures Newlines(EscapeOnce(s)) == Newlines(s)
  {
    if s == "" {
    } else {
      EscapeKeepsNewlines(s[1..]);
      var head := if s[0] == '\\' || s[0] == ':' then ['\\', s[0]] else [s[0]];
      NewlinesAppend(head, EscapeOnce(s[1..]));
      if |head| == 2 { assert head[1..][1..] == ""; } else { assert head[1..] == ""; }
    }
  }

  function TotalNewlines(fields: seq<string>): nat {
    if fields == [] then 0 else Newlines(fields[0]) + TotalNewlines(fields[1..])
  }

  lemma {:induction false} JoinKeepsNewlines(fields: seq<string>)
    requires fields != []
    ensures Newlines(Join(EscapeAll(fields))) == TotalNewlines(fields)
  {
    var escaped := EscapeAll(fields);
    TwoPassesAreOne(fields[0]);
    EscapeKeepsNewlines(fields[0]);
    if |fields| > 1 {
      assert escaped[1..] == EscapeAll(fields[1..]);
      JoinKeepsNewlines(fields[1..]);
      NewlinesAppend(escaped[0] + ":", Join(escaped[1..]));
      NewlinesAppend(escaped[0], ":");
      assert Newlines(":") == 0 by { assert ":"[1..] == ""; }
    } else {
      assert fields[1..] == [];
    }
  }

  lemma {:induction false} LinesAreNewlines(text: string, current: string)
    ensures |FileLines(text, current)| == Newlines(text) + 1
    ensures Newlines(text) == 0 ==> FileLines(text, current) == [current + text]
    decreases |text|
  {
    if text == "" {
      assert current + text == current;
    } else if text[0] == '\n' {
      LinesAreNewlines(text[1..], "");
    } else {
      LinesAreNewlines(text[1..], current + [text[0]]);
      assert current + [text[0]] + text[1..] == current + text;
    }
  }

  /** Written to a file and followed by a newline, an entry is one line, which reads back as the five
      fields, exactly when no field holds a newline. */
  lemma EntryIsOneLineIff(connection: Connection)
    ensures (exists line :: FileLines(PgpassEntry(connection) + "\n", "") == [line, ""]) <==> !AnyNewline(connection)
    ensures !AnyNewline(connection) ==>
      FileLines(PgpassEntry(connection) + "\n", "") == [PgpassEntry(connection), ""]
  {
    var entry, fields := PgpassEntry(connection), Fields(connection);
    JoinKeepsNewlines(fields);
    FieldNewlines(connection);
    LinesAreNewlines(entry + "\n", "");
    NewlinesAppend(entry, "\n");
    assert Newlines("\n") == 1 by { assert "\n"[1..] == ""; }
    if Newlines(entry) == 0 {
      LastLine(entry, "");
      assert "" + entry == entry;
    }
  }

  lemma {:induction false} LastLine(text: string, current: string)
    requires Newlines(text) == 0
    ensures FileLines(text + "\n", current) == [current + text, ""]
    decreases |text|
  {
    if text == "" {
      assert text + "\n" == "\n" && "\n"[1..] == "" && current + text == current;
    } else {
      assert (text + "\n")[1..] == text[1..] + "\n";
      LastLine(text[1..], current + [text[0]]);
      assert current + [text[0]] + text[1..] == current + text;
    }
  }

  lemma FieldNewlines(c: Connection)
    ensures TotalNewlines(Fields(c)) == 0 <==> !AnyNewline(c)
  {
    hide HasNewline;
    var f := Fields(c);
    NewlinesIff(c.hostname);
    NewlinesIff(c.port);
    NewlinesIff(c.database);
    NewlinesIff(c.username);
    NewlinesIff(c.password);
    var f1 := [c.port, c.database, c.username, c.password];
    var f2, f3 := [c.database, c.username, c.password], [c.username, c.password];
    assert f[1..] == f1 && f1[1..] == f2 && f2[1..] == f3 && f3[1..] == [c.password];
    assert TotalNewlines([c.password]) == Newlines(c.password) by { assert [c.password][1..] == []; }
    assert TotalNewlines(f3) == Newlines(c.username) + TotalNewlines([c.password]);
    assert TotalNewlines(f2) == Newlines(c.database) + TotalNewlines(f3);
    assert TotalNewlines(f1) == Newlines(c.port) + TotalNewlines(f2);
  }
}
