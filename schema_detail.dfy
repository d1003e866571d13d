/** The detailed schema check (`table-detail-check.js`): the line parser that
    reads table definitions out of `schema.sql`, and the column description
    built from one sample row of each live table. */
module SchemaDetail {
  import opened Seqs
  import opened JsCore
  import opened JsObject

  // ---------------------------------------------------------------- the table-name pattern

  /** `\w` */
  predicate IsWordChar(c: char)
  {
    'a' <= c <= 'z' || 'A' <= c <= 'Z' || '0' <= c <= '9' || c == '_'
  }

  predicate IsWord(s: string)
  {
    forall i :: 0 <= i < |s| ==> IsWordChar(s[i])
  }

  /** How many characters a greedy `\s*` takes at the start of `s`
      (`\s` is the same character class `trim` removes). */
  function WhiteRun(s: string): (n: nat)
    ensures n <= |s|
    ensures forall i :: 0 <= i < n ==> IsWhite(s[i])
    ensures n < |s| ==> !IsWhite(s[n])
  {
    if |s| > 0 && IsWhite(s[0]) then 1 + WhiteRun(s[1..]) else 0
  }

  /** How many characters a greedy `\w*` takes at the start of `s`. */
  function WordRun(s: string): (n: nat)
    ensures n <= |s|
    ensures IsWord(s[..n])
    ensures n < |s| ==> !IsWordChar(s[n])
  {
    if |s| > 0 && IsWordChar(s[0]) then
      var n := 1 + WordRun(s[1..]);
      assert s[..n] == [s[0]] + s[1..][..n - 1];
      n
    else 0
  }

  const CreateTable: string := "CREATE TABLE"
  const IfNotExists: string := "IF NOT EXISTS"

  /** The name `CREATE TABLE\s+IF NOT EXISTS\s+(\w+)` captures when it matches
      at the very start of `s`. The greedy runs never need to give anything
      back: a white-space character is neither `I` nor a word character. */
  function MatchHere(s: string): (r: Option<string>)
    ensures r.Some? ==> r.value != "" && IsWord(r.value)
  {
    if !StartsWith(s, CreateTable) then None
    else
      var a := s[|CreateTable|..];
      var w := WhiteRun(a);
      if w == 0 || !StartsWith(a[w..], IfNotExists) then None
      else
        var b := a[w + |IfNotExists|..];
        var w2 := WhiteRun(b);
        var n := WordRun(b[w2..]);
        if w2 == 0 || n == 0 then None else Some(b[w2..][..n])
  }

  /** `line.match(/CREATE TABLE\s+IF NOT EXISTS\s+(\w+)/)[1]`: the capture of
      the leftmost match, if any. */
  function TableName(s: string): (r: Option<string>)
    ensures r.Some? ==> r.value != "" && IsWord(r.value)
    decreases |s|
  {
    if |s| == 0 then None
    else if MatchHere(s).Some? then MatchHere(s)
    else TableName(s[1..])
  }

  lemma {:induction false} ContainsAt(s: string, t: string, k: nat)
    requires k <= |s| && StartsWith(s[k..], t)
    ensures Contains(s, t)
    decreases k
  {
    if k > 0 {
      assert s[1..][k - 1..] == s[k..];
      ContainsAt(s[1..], t, k - 1);
    }
  }

  /** A match always contains the words `IF NOT EXISTS`. */
  lemma MatchHereNeedsIfNotExists(s: string)
    requires MatchHere(s).Some?
    ensures Contains(s, IfNotExists)
  {
    var a := s[|CreateTable|..];
    var w := WhiteRun(a);
    assert s[|CreateTable| + w..] == a[w..];
    ContainsAt(s, IfNotExists, |CreateTable| + w);
  }

  /** A `CREATE TABLE` line without `IF NOT EXISTS` yields no table name. */
  lemma {:induction false} NameNeedsIfNotExists(s: string)
    requires !Contains(s, IfNotExists)
    ensures TableName(s) == None
    decreases |s|
  {
    if |s| > 0 {
      if MatchHere(s).Some? {
        MatchHereNeedsIfNotExists(s);
      }
      assert !Contains(s[1..], IfNotExists);
      NameNeedsIfNotExists(s[1..]);
    }
  }

  /** `p + q` starts with `p`, and dropping `p` leaves `q`. */
  lemma PrefixOf(p: string, q: string)
    ensures StartsWith(p + q, p) && (p + q)[|p|..] == q
  {
    assert (p + q)[..|p|] == p;
  }

  lemma WhiteRunOne(c: char, s: string)
    requires IsWhite(c) && |s| > 0 && !IsWhite(s[0])
    ensures WhiteRun([c] + s) == 1
  {
    assert ([c] + s)[1..] == s;
  }

  lemma WordNotWhite(c: char)
    requires IsWordChar(c)
    ensures !IsWhite(c)
  {
  }

  /** The header form the pattern is written for captures exactly its word. */
  lemma HeaderName(name: string, rest: string)
    requires name != "" && IsWord(name)
    requires rest == "" || !IsWordChar(rest[0])
    ensures TableName(CreateTable + (" " + (IfNotExists + (" " + (name + rest))))) == Some(name)
  {
    var s4 := name + rest;
    var s3 := " " + s4;
    var s2 := IfNotExists + s3;
    var s1 := " " + s2;
    var s := CreateTable + s1;
    PrefixOf(CreateTable, s1);
    assert s[|CreateTable|..] == s1;
    assert s2[0] == 'I';
    WhiteRunOne(' ', s2);
    assert s1[1..] == s2;
    PrefixOf(IfNotExists, s3);
    assert s1[1 + |IfNotExists|..] == s3;
    assert s4[0] == name[0];
    WordNotWhite(name[0]);
    WhiteRunOne(' ', s4);
    assert s3[1..] == s4;
    WordRunOf(name, rest);
    assert s4[..|name|] == name;
    assert MatchHere(s) == Some(name);
  }

  lemma {:induction false} WordRunOf(name: string, rest: string)
    requires IsWord(name)
    requires rest == "" || !IsWordChar(rest[0])
    ensures WordRun(name + rest) == |name|
    decreases |name|
  {
    if |name| > 0 {
      assert (name + rest)[1..] == name[1..] + rest;
      WordRunOf(name[1..], rest);
    } else {
      assert name + rest == rest;
    }
  }

  // ---------------------------------------------------------------- the line parser

  /** The loop's state: the tables stored so far, the table being read,
      whether column lines are being collected, and the columns read. */
  datatype Parser = Parser(tables: Dict<seq<string>>, current: Option<string>, collecting: bool, columns: seq<string>)

  function Start(): Parser
  {
    Parser(Empty(), None, false, [])
  }

  /** `s.replace(/,$/, '')` */
  function DropTrailingComma(s: string): (r: string)
    ensures r == s || (s == r + [','])
  {
    if |s| > 0 && s[|s| - 1] == ',' then s[..|s| - 1] else s
  }

  /** The column a definition line contributes: the line without its
      trailing comma, unless that is empty, a `--` comment or `(`. */
  function ColumnText(t: string): (r: Option<string>)
    ensures r.Some? ==> r.value != "" && !StartsWith(r.value, "--") && r.value != "("
    ensures r.Some? ==> r.value == Trim(DropTrailingComma(t))
  {
    var info := Trim(DropTrailingComma(t));
    if info != "" && !StartsWith(info, "--") && info != "(" then Some(info) else None
  }

  /** The test that starts a table: `CREATE TABLE` at the start and a `(` somewhere. */
  predicate Opens(t: string)
  {
    StartsWith(t, CreateTable) && '(' in t
  }

  /** A table is being read: `collectingColumns && currentTable`. */
  predicate Reading(p: Parser)
  {
    p.collecting && p.current.Some? && p.current.value != ""
  }

  /** One turn of the loop over a line. The closing line `);` has no space, so
      no turn stores a table. */
  function Step(p: Parser, line: string): (r: Parser)
    ensures r.tables == p.tables
  {
    var t := Trim(line);
    assert t == ");" ==> ' ' !in t by {
      if t == ");" {
        assert t[0] != ' ' && t[1] != ' ';
      }
    }
    Turn(p, t)
  }

  /** One turn of the loop over the trimmed line `t`. The closing test sits
      inside the branch that requires a space. */
  function Turn(p: Parser, t: string): Parser
  {
    if Opens(t) then
      match TableName(t)
      case Some(name) => p.(collecting := true, current := Some(name), columns := [])
      case None => p.(collecting := true)
    else if Reading(p) && ' ' in t then
      var name := p.current.value;
      if t == ");" then Parser(Put(p.tables, name, p.columns), None, false, p.columns)
      else
        match ColumnText(t)
        case Some(c) => p.(columns := p.columns + [c])
        case None => p
    else p
  }

  /** The loop over the lines; no run changes the tables. */
  function Run(p: Parser, lines: seq<string>): (r: Parser)
    ensures r.tables == p.tables
    decreases |lines|
  {
    if |lines| == 0 then p else Run(Step(p, lines[0]), lines[1..])
  }

  /** `parseSchemaFile(path)` on the file's text; `None` is a file that cannot
      be read, which the function answers with `{}`. As written, it answers
      `{}` for every file. */
  function Parse(content: Option<string>): (r: Dict<seq<string>>)
    ensures r == Empty()
  {
    if content.None? then Empty() else Run(Start(), Split(content.value, '\n')).tables
  }

  /** The parser as the script runs it: one pass over the lines, updating
      the four variables of its loop. */
  method ParseSchemaFile(content: Option<string>) returns (tables: Dict<seq<string>>)
    ensures tables == Parse(content)
  {
    tables := Empty();
    if content.None? {
      return;
    }
    var current: Option<string> := None;
    var collecting := false;
    var columns: seq<string> := [];
    var lines := Split(content.value, '\n');
    var i := 0;
    while i < |lines|
      invariant 0 <= i <= |lines|
      invariant Run(Parser(tables, current, collecting, columns), lines[i..]) == Run(Start(), lines)
    {
      var before := Parser(tables, current, collecting, columns);
      var t := Trim(lines[i]);
      if StartsWith(t, CreateTable) && '(' in t {
        collecting := true;
        var m := TableName(t);
        if m.Some? {
          current := m;
          columns := [];
        }
      } else if collecting && current.Some? && current.value != "" && ' ' in t {
        var name := current.value;
        if t == ");" {
          collecting := false;
          tables := Put(tables, name, columns);
          current := None;
        } else {
          var info := Trim(DropTrailingComma(t));
          if info != "" && !StartsWith(info, "--") && info != "(" {
            columns := columns + [info];
          }
        }
      }
      assert Parser(tables, current, collecting, columns) == Turn(before, t);
      assert lines[i..][1..] == lines[i + 1..];
      i := i + 1;
    }
  }

  /** A `CREATE TABLE` line without `IF NOT EXISTS` starts collecting but
      keeps the previous table name and its columns. */
  lemma PlainCreateKeepsTable(p: Parser, line: string)
    requires Opens(Trim(line)) && !Contains(Trim(line), IfNotExists)
    ensures Step(p, line) == p.(collecting := true)
  {
    NameNeedsIfNotExists(Trim(line));
  }

  /** A line with no space that opens nothing changes nothing. */
  lemma NoSpaceNoColumn(p: Parser, line: string)
    requires !Opens(Trim(line)) && ' ' !in Trim(line)
    ensures Step(p, line) == p
  {
  }

  /** Every collected column is a non-empty, non-comment definition text other than a lone `(`. */
  ghost predicate ColumnsClean(p: Parser)
  {
    forall i :: 0 <= i < |p.columns| ==>
      p.columns[i] != "" && !StartsWith(p.columns[i], "--") && p.columns[i] != "("
  }

  lemma {:induction false} RunColumnsClean(p: Parser, lines: seq<string>)
    requires ColumnsClean(p)
    ensures ColumnsClean(Run(p, lines))
    decreases |lines|
  {
    if |lines| > 0 {
      var q := Step(p, lines[0]);
      assert ColumnsClean(q);
      RunColumnsClean(q, lines[1..]);
    }
  }

  // ---------------------------------------------------------------- the intended parser

  /** The loop with the closing test ahead of the space test, as the
      comments of the script describe it: `);` ends the table and stores it. */
  function FixedStep(p: Parser, line: string): Parser
  {
    var t := Trim(line);
    if Opens(t) then
      match TableName(t)
      case Some(name) => p.(collecting := true, current := Some(name), columns := [])
      case None => p.(collecting := true)
    else if Reading(p) && t == ");" then
      Parser(Put(p.tables, p.current.value, p.columns), None, false, p.columns)
    else if Reading(p) && ' ' in t then
      match ColumnText(t)
      case Some(c) => p.(columns := p.columns + [c])
      case None => p
    else p
  }

  function FixedRun(p: Parser, lines: seq<string>): Parser
    decreases |lines|
  {
    if |lines| == 0 then p else FixedRun(FixedStep(p, lines[0]), lines[1..])
  }

  function FixedParse(content: Option<string>): Dict<seq<string>>
  {
    if content.None? then Empty() else FixedRun(Start(), Split(content.value, '\n')).tables
  }

  /** On a closing line the written parser does nothing, while the intended
      one stores the table under its name with the columns read. */
  lemma ClosingLine(p: Parser, line: string)
    requires Reading(p) && Trim(line) == ");"
    ensures Step(p, line) == p
    ensures FixedStep(p, line).tables == Put(p.tables, p.current.value, p.columns)
    ensures !FixedStep(p, line).collecting && FixedStep(p, line).current == None
  {
    assert !Opens(");");
  }

  /** The intended parser keeps the tables a valid dictionary. */
  lemma {:induction false} FixedRunValid(p: Parser, lines: seq<string>)
    requires Valid(p.tables)
    ensures Valid(FixedRun(p, lines).tables)
    decreases |lines|
  {
    if |lines| > 0 {
      var q := FixedStep(p, lines[0]);
      if Reading(p) && !Opens(Trim(lines[0])) && Trim(lines[0]) == ");" {
        PutValid(p.tables, p.current.value, p.columns);
      }
      FixedRunValid(q, lines[1..]);
    }
  }

  lemma FixedRunThree(p: Parser, a: string, b: string, c: string)
    ensures FixedRun(p, [a, b, c]) == FixedStep(FixedStep(FixedStep(p, a), b), c)
  {
    var p1 := FixedStep(p, a);
    var p2 := FixedStep(p1, b);
    assert [a, b, c][1..] == [b, c] && [b, c][1..] == [c];
    assert FixedRun(p, [a, b, c]) == FixedRun(p1, [b, c]);
    assert FixedRun(p1, [b, c]) == FixedRun(p2, [c]);
    assert FixedRun(p2, [c]) == FixedRun(FixedStep(p2, c), []);
  }

  /** `CREATE TABLE IF NOT EXISTS <name> (` */
  function Header(name: string): string
  {
    CreateTable + (" " + (IfNotExists + (" " + (name + " ("))))
  }

  lemma HeaderTrimmed(name: string)
    ensures Trim(Header(name)) == Header(name)
  {
    var h := Header(name);
    assert h[0] == 'C';
    assert h[|h| - 1] == '(';
    assert TrimStart(h) == h;
    assert TrimEnd(h) == h;
  }

  lemma HeaderOpens(name: string)
    requires name != "" && IsWord(name)
    ensures Trim(Header(name)) == Header(name)
    ensures Opens(Header(name)) && TableName(Header(name)) == Some(name)
  {
    var h := Header(name);
    HeaderTrimmed(name);
    HeaderName(name, " (");
    PrefixOf(CreateTable, " " + (IfNotExists + (" " + (name + " ("))));
    assert h[|h| - 1] == '(';
  }

  lemma HeaderStep(p: Parser, name: string)
    requires name != "" && IsWord(name)
    ensures FixedStep(p, Header(name)) == p.(collecting := true, current := Some(name), columns := [])
  {
    HeaderOpens(name);
  }

  lemma ColumnLine(p: Parser, column: string)
    requires Reading(p)
    requires column == Trim(column) && ' ' in column && column[|column| - 1] != ','
    requires !StartsWith(column, "--") && !StartsWith(column, CreateTable)
    ensures FixedStep(p, column + ",") == p.(columns := p.columns + [column])
  {
    var line := column + ",";
    assert column != "";
    assert TrimStart(line) == line by {
      assert line[0] == column[0];
    }
    assert TrimEnd(line) == line;
    assert DropTrailingComma(line) == column;
    if |column| >= |CreateTable| {
      assert line[..|CreateTable|] == column[..|CreateTable|];
    } else if |line| == |CreateTable| {
      assert line[|line| - 1] == ',';
    }
    assert !StartsWith(line, CreateTable);
    assert line != ");";
    assert ' ' in line by {
      var k :| 0 <= k < |column| && column[k] == ' ';
      assert line[k] == ' ';
    }
    assert column != "(";
  }

  lemma CloseStep(p: Parser)
    requires Reading(p)
    ensures FixedStep(p, ");").tables == Put(p.tables, p.current.value, p.columns)
  {
    assert Trim(");") == ");" by {
      assert TrimStart(");") == ");";
      assert TrimEnd(");") == ");";
    }
    assert !Opens(");");
  }

  /** The intended parser stores a table block `CREATE TABLE IF NOT EXISTS <name> (`,
      one column line, `);` under its name with that one column. */
  lemma OneTableBlock(name: string, column: string)
    requires name != "" && IsWord(name)
    requires column == Trim(column) && ' ' in column && column[|column| - 1] != ','
    requires !StartsWith(column, "--") && !StartsWith(column, CreateTable)
    ensures FixedRun(Start(), [Header(name), column + ",", ");"]).tables == Put(Empty(), name, [column])
  {
    var p0 := Start();
    FixedRunThree(p0, Header(name), column + ",", ");");
    HeaderStep(p0, name);
    var p1 := Parser(Empty(), Some(name), true, []);
    assert FixedStep(p0, Header(name)) == p1;
    ColumnLine(p1, column);
    var p2 := Parser(Empty(), Some(name), true, [column]);
    assert FixedStep(p1, column + ",") == p2;
    CloseStep(p2);
  }

  /** The written parser loses the same block. */
  lemma OneTableBlockLost(name: string, column: string)
    ensures Run(Start(), [Header(name), column + ",", ");"]).tables == Empty()
  {
  }

  // ---------------------------------------------------------------- column description

  /** The error object the database client hands back. */
  datatype DbError = DbError(code: string, message: string)

  /** The code for "no rows", which both scripts treat as success. */
  const NoRows: string := "PGRST116"

  predicate Fails(e: Option<DbError>)
  {
    e.Some? && e.value.code != NoRows
  }

  datatype Column = Column(name: string, kind: string)

  /** The type the script reports for a sample value: `typeof`, refined for
      `null`, arrays, dates and other objects. */
  function ColumnKind(v: JsVal): (k: string)
    ensures k != "object"
    ensures TypeOf(v) != "object" ==> k == TypeOf(v)
    ensures v.Null? <==> k == "unknown (null)"
    ensures v.Arr? <==> k == "array"
    ensures v.Date? <==> k == "timestamp"
    ensures v.Obj? <==> k == "json"
  {
    match v
    case Null => "unknown (null)"
    case Arr(_) => "array"
    case Date(_, _) => "timestamp"
    case Obj(_) => "json"
    case _ => TypeOf(v)
  }

  /** `Object.keys(sample).map(name => ({ name, type }))` */
  function Describe(sample: Dict<JsVal>): (cs: seq<Column>)
    requires Valid(sample)
    ensures |cs| == |Keys(sample)|
    ensures forall i :: 0 <= i < |cs| ==> cs[i].name == Keys(sample)[i] && cs[i].kind == ColumnKind(sample.m[cs[i].name])
  {
    var ks := Keys(sample);
    seq(|ks|, i requires 0 <= i < |ks| => Column(ks[i], ColumnKind(sample.m[ks[i]])))
  }

  function Names(cs: seq<Column>): (ns: seq<string>)
    ensures |ns| == |cs| && forall i :: 0 <= i < |cs| ==> ns[i] == cs[i].name
  {
    seq(|cs|, i requires 0 <= i < |cs| => cs[i].name)
  }

  /** One column per key of the sample, each named once. */
  lemma DescribeNames(sample: Dict<JsVal>)
    requires Valid(sample)
    ensures NoDups(Names(Describe(sample)))
    ensures forall k :: k in Names(Describe(sample)) <==> k in sample.m
  {
    var ns := Names(Describe(sample));
    assert ns == Keys(sample);
    KeysCover(sample);
  }

  /** What `getTableStructure` reports about a table that answered. */
  datatype Structure = Structure(columns: seq<Column>, sample: Option<Dict<JsVal>>, error: Option<string>)

  /** `getTableStructure(name)` given the outcome of its two queries: the
      probe's error, and the sample query's rows and error. `None` is the
      `null` returned for a table that cannot be reached. */
  function TableStructure(probe: Option<DbError>, rows: Option<seq<Dict<JsVal>>>, rowsError: Option<DbError>): (r: Option<Structure>)
    requires rows.Some? && |rows.value| > 0 ==> Valid(rows.value[0])
    ensures r.None? <==> Fails(probe)
    ensures r.Some? && r.value.error.Some? <==> !Fails(probe) && Fails(rowsError)
    ensures r.Some? && r.value.sample.Some? <==>
      !Fails(probe) && !Fails(rowsError) && rows.Some? && |rows.value| > 0
    ensures r.Some? && r.value.sample.Some? ==> r.value.sample == Some(rows.value[0])
    ensures r.Some? && r.value.columns != [] ==> r.value.sample.Some?
  {
    if Fails(probe) then None
    else if Fails(rowsError) then
      Some(Structure([], None, Some("샘플 데이터 쿼리 오류: " + rowsError.value.message)))
    else if rows.None? || |rows.value| == 0 then Some(Structure([], None, None))
    else Some(Structure(Describe(rows.value[0]), Some(rows.value[0]), None))
  }
}
