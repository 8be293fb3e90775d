/** The ClickHouse statement splitter, and printing as its left inverse. Lines end in a newline. */
module SplitSql {
  import opened Text

  predicate StartsWith(s: string, prefix: string) { prefix <= s }

  predicate EndsSemicolon(s: string) { s != [] && s[|s| - 1] == ';' }

  predicate IsComment(line: string) { StartsWith(Strip(line), "--") }

  /** str.splitlines: no piece for the text after a final newline. */
  function Lines(s: string): seq<string> {
    var parts := Split(s, '\n');
    if parts[|parts| - 1] == "" then parts[..|parts| - 1] else parts
  }

  function DropSemicolons(s: string): string {
    if EndsSemicolon(s) then DropSemicolons(s[..|s| - 1]) else s
  }

  /** "\n".join(current).strip().rstrip(";").strip() */
  function Statement(current: seq<string>): string {
    Strip(DropSemicolons(Strip(Join(current, "\n"))))
  }

  function Emit(current: seq<string>): seq<string> {
    if Statement(current) != "" then [Statement(current)] else []
  }

  /** What the loop appends for the remaining lines, with current already collected. */
  function SplitFrom(lines: seq<string>, current: seq<string>): seq<string>
    decreases |lines|
  {
    if lines == [] then Emit(current)
    else if IsComment(lines[0]) then SplitFrom(lines[1..], current)
    else if EndsSemicolon(Strip(lines[0])) then Emit(current + [lines[0]]) + SplitFrom(lines[1..], [])
    else SplitFrom(lines[1..], current + [lines[0]])
  }

  function Statements(sql: string): seq<string> { SplitFrom(Lines(sql), []) }

  method SplitSql(sql: string) returns (statements: seq<string>)
    ensures statements == Statements(sql)
  {
    statements := [];
    var current: seq<string> := [];
    var lines := Lines(sql);
    for i := 0 to |lines|
      invariant statements + SplitFrom(lines[i..], current) == Statements(sql)
    {
      var rawLine := lines[i];
      var stripped := Strip(rawLine);
      assert lines[i..][0] == rawLine && lines[i..][1..] == lines[i + 1..];
      if StartsWith(stripped, "--") {
        continue;
      }
      current := current + [rawLine];
      if EndsSemicolon(stripped) {
        var statement := Strip(DropSemicolons(Strip(Join(current, "\n"))));
        ghost var before, rest := statements, SplitFrom(lines[i + 1..], []);
        assert before + (Emit(current) + rest) == (before + Emit(current)) + rest;
        if statement != "" {
          statements := statements + [statement];
        }
        current := [];
      }
    }
    assert lines[|lines|..] == [];
    var tail := Strip(DropSemicolons(Strip(Join(current, "\n"))));
    if tail != "" {
      statements := statements + [tail];
    }
  }

  lemma {:induction false} StatementsAreTrimmed(lines: seq<string>, current: seq<string>)
    ensures forall s :: s in SplitFrom(lines, current) ==> s != "" && Trimmed(s)
    decreases |lines|
  {
    StripTrims(DropSemicolons(Strip(Join(current, "\n"))));
    if lines != [] {
      StatementsAreTrimmed(lines[1..], current);
      StatementsAreTrimmed(lines[1..], []);
      StatementsAreTrimmed(lines[1..], current + [lines[0]]);
      StripTrims(DropSemicolons(Strip(Join(current + [lines[0]], "\n"))));
    }
  }

  // ----- Printing -----

  function PrintStatements(statements: seq<string>): string {
    if statements == [] then "" else statements[0] + ";" + "\n" + PrintStatements(statements[1..])
  }

  /** A statement that survives printing: trimmed, with no comment line and no line that ends in a semicolon. */
  predicate Clean(s: string) {
    s != "" && Trimmed(s) &&
    forall i :: 0 <= i < |Split(s, '\n')| ==> !IsComment(Split(s, '\n')[i]) && !EndsSemicolon(Strip(Split(s, '\n')[i]))
  }

  /** The pieces with t appended to the last. */
  function AppendToLast(parts: seq<string>, t: string): seq<string>
    requires parts != []
  {
    if |parts| == 1 then [parts[0] + t] else [parts[0]] + AppendToLast(parts[1..], t)
  }

  lemma {:induction false} AppendToLastMeans(parts: seq<string>, t: string)
    requires parts != []
    ensures AppendToLast(parts, t) == parts[..|parts| - 1] + [parts[|parts| - 1] + t]
  {
    if |parts| > 1 {
      AppendToLastMeans(parts[1..], t);
    }
  }

  lemma AppendBehind(first: string, rest: seq<string>, t: string)
    requires rest != []
    ensures AppendToLast([first] + rest, t) == [first] + AppendToLast(rest, t)
  {
    assert ([first] + rest)[1..] == rest;
  }

  lemma AppendGlued(c: char, rest: seq<string>, t: string)
    requires rest != []
    ensures AppendToLast(rest, t) != []
    ensures AppendToLast([[c] + rest[0]] + rest[1..], t) == [[c] + AppendToLast(rest, t)[0]] +
            AppendToLast(rest, t)[1..]
  {
    if |rest| == 1 {
      assert [c] + rest[0] + t == [c] + (rest[0] + t);
    } else {
      AppendBehind([c] + rest[0], rest[1..], t);
      assert ([rest[0]] + AppendToLast(rest[1..], t))[1..] == AppendToLast(rest[1..], t);
    }
  }

  lemma {:induction false} SplitAppend(s: string, t: string, sep: char)
    requires sep !in t
    ensures Split(s + t, sep) == AppendToLast(Split(s, sep), t)
  {
    if s == [] {
      assert s + t == t;
      SplitNoSeparator(t, sep);
    } else {
      assert (s + t)[0] == s[0] && (s + t)[1..] == s[1..] + t;
      SplitAppend(s[1..], t, sep);
      AppendBehind("", Split(s[1..], sep), t);
      AppendGlued(s[0], Split(s[1..], sep), t);
    }
  }

  function LastOf(parts: seq<string>): string
    requires parts != []
  {
    parts[|parts| - 1]
  }

  /** The last piece of a string ends with the string's last character. */
  lemma {:induction false} LastPiece(s: string, sep: char)
    requires s != [] && s[|s| - 1] != sep
    ensures var p := LastOf(Split(s, sep)); p != [] && p[|p| - 1] == s[|s| - 1]
  {
    var rest := Split(s[1..], sep);
    if |s| == 1 {
      assert rest == [""];
    } else {
      LastPiece(s[1..], sep);
      assert LastOf(Split(s, sep)) == if |rest| == 1 && s[0] != sep then [s[0]] + rest[0] else LastOf(rest);
    }
  }

  lemma {:induction false} TrimLeftAppend(x: string, t: string)
    requires x != [] && !IsSpace(x[|x| - 1])
    ensures TrimLeft(x + t) == TrimLeft(x) + t && TrimLeft(x) != []
  {
    if IsSpace(x[0]) {
      assert (x + t)[1..] == x[1..] + t;
      TrimLeftAppend(x[1..], t);
    }
  }

  /** A line closed by a semicolon is one that ends a statement, and no comment unless it was one. */
  lemma ClosedLine(x: string)
    requires x != [] && !IsSpace(x[|x| - 1])
    ensures EndsSemicolon(Strip(x + ";"))
    ensures IsComment(x + ";") <==> IsComment(x)
    ensures EndsSemicolon(Strip(x)) <==> x[|x| - 1] == ';'
  {
    TrimLeftAppend(x, ";");
    TrimLeftAppend(x, "");
    assert x + "" == x;
    var t := TrimLeft(x);
    TrimLeftSuffix(x);
    assert t[|t| - 1] == x[|x| - 1];
    assert Strip(x) == t && Strip(x + ";") == t + ";";
    if |t| == 1 { assert (t + ";")[1] == ';'; }
  }

  lemma StatementOfPrinted(s: string)
    requires s != "" && Trimmed(s) && !EndsSemicolon(s)
    ensures Statement(Split(s + ";", '\n')) == s
  {
    var closed := s + ";";
    assert ['\n'] == "\n";
    JoinSplit(closed, '\n');
    assert closed[|closed| - 1] == ';' && closed[..|closed| - 1] == s;
    assert Trimmed(closed) by { assert closed[0] == s[0]; }
    StripTrims(closed);
    StripTrims(s);
    assert DropSemicolons(s) == s;
    assert DropSemicolons(closed) == s;
  }

  /** The lines of one printed statement: only the last ends in a semicolon. */
  ghost predicate OneStatement(lines: seq<string>) {
    && lines != []
    && (forall i :: 0 <= i < |lines| ==> !IsComment(lines[i]))
    && (forall i :: 0 <= i < |lines| - 1 ==> !EndsSemicolon(Strip(lines[i])))
    && EndsSemicolon(Strip(lines[|lines| - 1]))
  }

  lemma {:induction false} CollectStatement(lines: seq<string>, rest: seq<string>, current: seq<string>)
    requires OneStatement(lines)
    ensures SplitFrom(lines + rest, current) == Emit(current + lines) + SplitFrom(rest, [])
    decreases |lines|
  {
    assert (lines + rest)[0] == lines[0] && (lines + rest)[1..] == lines[1..] + rest;
    if |lines| == 1 {
      assert lines[1..] + rest == rest && lines == [lines[0]];
    } else {
      assert OneStatement(lines[1..]);
      CollectStatement(lines[1..], rest, current + [lines[0]]);
      assert current + [lines[0]] + lines[1..] == current + lines;
    }
  }

  lemma PrintedIsOneStatement(s: string)
    requires Clean(s)
    ensures OneStatement(Split(s + ";", '\n')) && Statement(Split(s + ";", '\n')) == s
  {
    var parts := Split(s, '\n');
    SplitAppend(s, ";", '\n');
    AppendToLastMeans(parts, ";");
    LastPiece(s, '\n');
    ClosedLine(LastOf(parts));
    assert !EndsSemicolon(Strip(parts[|parts| - 1]));
    StatementOfPrinted(s);
  }

  lemma {:induction false} LinesAfterNewline(a: string, b: string)
    ensures Lines(a + "\n" + b) == Split(a, '\n') + Lines(b)
  {
    SplitConcat(a, b, '\n');
    assert a + ['\n'] + b == a + "\n" + b;
    var p, q := Split(a, '\n'), Split(b, '\n');
    assert (p + q)[|p + q| - 1] == q[|q| - 1];
    assert (p + q)[..|p + q| - 1] == p + q[..|q| - 1];
  }

  /** Splitting inverts printing, for every list of clean statements. */
  lemma {:induction false} SplitInvertsPrint(statements: seq<string>)
    requires forall i :: 0 <= i < |statements| ==> Clean(statements[i])
    ensures Statements(PrintStatements(statements)) == statements
  {
    if statements == [] {
      assert Lines("") == [];
      assert Join([], "\n") == "" && Strip("") == "";
    } else {
      SplitInvertsPrint(statements[1..]);
      PrintedStatementFirst(statements[0], PrintStatements(statements[1..]));
      assert statements == [statements[0]] + statements[1..];
    }
  }

  lemma PrintedStatementFirst(s: string, rest: string)
    requires Clean(s)
    ensures Statements(s + ";" + "\n" + rest) == [s] + Statements(rest)
  {
    var lines := Split(s + ";", '\n');
    LinesAfterNewline(s + ";", rest);
    PrintedIsOneStatement(s);
    CollectStatement(lines, Lines(rest), []);
    assert [] + lines == lines;
  }

  // ----- Comments -----

  lemma {:induction false} CommentLineIgnored(before: seq<string>, comment: string, after: seq<string>,
          current: seq<string>)
    requires IsComment(comment)
    ensures SplitFrom(before + [comment] + after, current) == SplitFrom(before + after, current)
    decreases |before|
  {
    var with, without := before + [comment] + after, before + after;
    if before == [] {
      assert with[0] == comment && with[1..] == after && without == after;
    } else {
      assert with[0] == before[0] && with[1..] == before[1..] + [comment] + after;
      assert without[0] == before[0] && without[1..] == before[1..] + after;
      CommentLineIgnored(before[1..], comment, after, current);
      CommentLineIgnored(before[1..], comment, after, []);
      CommentLineIgnored(before[1..], comment, after, current + [before[0]]);
    }
  }

  /** Inserting a comment line at any line boundary changes nothing. */
  lemma CommentChangesNothing(before: string, comment: string, after: string)
    requires before == "" || before[|before| - 1] == '\n'
    requires IsComment(comment) && '\n' !in comment
    ensures Statements(before + comment + "\n" + after) == Statements(before + after)
  {
    if before == "" {
      assert before + comment == comment && before + after == after;
      CommentFirst(comment, after);
    } else {
      var a := before[..|before| - 1];
      assert before == a + "\n";
      Regroup(a, comment, after);
      CommentAfterLine(a, comment, after);
    }
  }

  lemma Regroup(a: string, b: string, c: string)
    ensures (a + "\n") + b + "\n" + c == a + "\n" + (b + "\n" + c)
  {
  }

  lemma CommentLines(comment: string, after: string)
    requires '\n' !in comment
    ensures Lines(comment + "\n" + after) == [comment] + Lines(after)
  {
    LinesAfterNewline(comment, after);
    SplitNoSeparator(comment, '\n');
  }

  lemma CommentFirst(comment: string, after: string)
    requires IsComment(comment) && '\n' !in comment
    ensures Statements(comment + "\n" + after) == Statements(after)
  {
    CommentLines(comment, after);
    assert ([comment] + Lines(after))[1..] == Lines(after);
  }

  lemma CommentAfterLine(a: string, comment: string, after: string)
    requires IsComment(comment) && '\n' !in comment
    ensures Statements(a + "\n" + (comment + "\n" + after)) == Statements(a + "\n" + after)
  {
    var lines := Split(a, '\n');
    CommentLines(comment, after);
    LinesAfterNewline(a, comment + "\n" + after);
    LinesAfterNewline(a, after);
    assert lines + ([comment] + Lines(after)) == lines + [comment] + Lines(after);
    CommentLineIgnored(lines, comment, Lines(after), []);
  }
}
