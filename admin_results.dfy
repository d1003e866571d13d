/** The results administration page: the CSV template it writes, the CSV reader
    it uploads with, and the wide-to-long transform from template rows to
    response records. */
module AdminResults {
  import opened Seqs
  import opened JsCore
  import opened JsObject

  // ---------------------------------------------------------------- reading one line

  /** The character loop of the upload parser, on the unread rest `s` of a line:
      `row` holds the finished fields, `cur` the field being read. A `""` inside
      quotes stands for one `"`; any other `"` toggles quoting and is dropped; a
      `,` outside quotes ends the field. */
  function Scan(s: string, inQuotes: bool, cur: string, row: seq<string>): (r: seq<string>)
    ensures |row| < |r| <= |row| + |s| + 1
    ensures r[..|row|] == row
    decreases |s|
  {
    if |s| == 0 then row + [cur]
    else if s[0] == '"' then
      if inQuotes && |s| > 1 && s[1] == '"' then Scan(s[2..], true, cur + "\"", row)
      else Scan(s[1..], !inQuotes, cur, row)
    else if s[0] == ',' && !inQuotes then Scan(s[1..], false, "", row + [cur])
    else Scan(s[1..], inQuotes, cur + [s[0]], row)
  }

  /** The fields of one line. */
  function ParseLine(line: string): (r: seq<string>)
    ensures 1 <= |r| <= |line| + 1
  {
    Scan(line, false, "", [])
  }

  /** The upload's per-line parsing loop. */
  method ParseCsvLine(line: string) returns (row: seq<string>)
    ensures row == ParseLine(line)
  {
    row := [];
    var currentValue := "";
    var inQuotes := false;
    var i := 0;
    while i < |line|
      invariant 0 <= i <= |line|
      invariant Scan(line[i..], inQuotes, currentValue, row) == ParseLine(line)
      decreases |line| - i
    {
      var c := line[i];
      assert line[i..][1..] == line[i + 1..];
      if c == '"' {
        if inQuotes && i < |line| - 1 && line[i + 1] == '"' {
          assert line[i..][2..] == line[i + 2..];
          currentValue := currentValue + "\"";
          i := i + 1;
        } else {
          inQuotes := !inQuotes;
        }
      } else if c == ',' && !inQuotes {
        row := row + [currentValue];
        currentValue := "";
      } else {
        currentValue := currentValue + [c];
      }
      i := i + 1;
    }
    row := row + [currentValue];
  }

  /** The first field of a split and the fields after it, one character in. */
  lemma SplitCons(s: string, sep: char)
    requires |s| > 0
    ensures Split(s, sep)[0] == if s[0] == sep then "" else [s[0]] + Split(s[1..], sep)[0]
    ensures Split(s, sep)[1..] == if s[0] == sep then Split(s[1..], sep) else Split(s[1..], sep)[1..]
  {
  }

  /** The step of `ScanNoQuotes` over a comma. */
  lemma NoQuotesComma(s: string, cur: string, row: seq<string>)
    requires |s| > 0 && s[0] == ','
    requires Scan(s[1..], false, "", row + [cur])
             == row + [cur] + ["" + Split(s[1..], ',')[0]] + Split(s[1..], ',')[1..]
    ensures Scan(s, false, cur, row) == row + [cur + Split(s, ',')[0]] + Split(s, ',')[1..]
  {
    assert Scan(s, false, cur, row) == Scan(s[1..], false, "", row + [cur]);
    SplitCons(s, ',');
    CommaFields(row, cur, Split(s[1..], ','));
  }

  lemma CommaFields(row: seq<string>, cur: string, rest: seq<string>)
    requires |rest| > 0
    ensures row + [cur] + ["" + rest[0]] + rest[1..] == row + [cur + ""] + rest
  {
    assert "" + rest[0] == rest[0] && cur + "" == cur;
    assert rest == [rest[0]] + rest[1..];
  }

  /** The step of `ScanNoQuotes` over any other character. */
  lemma NoQuotesChar(s: string, cur: string, row: seq<string>)
    requires |s| > 0 && s[0] != ',' && s[0] != '"'
    requires Scan(s[1..], false, cur + [s[0]], row)
             == row + [cur + [s[0]] + Split(s[1..], ',')[0]] + Split(s[1..], ',')[1..]
    ensures Scan(s, false, cur, row) == row + [cur + Split(s, ',')[0]] + Split(s, ',')[1..]
  {
    var rest := Split(s[1..], ',');
    assert s == [s[0]] + s[1..];
    ScanChar(s[0], s[1..], false, cur, row);
    SplitCons(s, ',');
    assert cur + [s[0]] + rest[0] == cur + ([s[0]] + rest[0]);
  }

  /** Without quotes, the scan is a plain split on every comma. */
  lemma {:induction false} ScanNoQuotes(s: string, cur: string, row: seq<string>)
    requires '"' !in s
    ensures Scan(s, false, cur, row) == row + [cur + Split(s, ',')[0]] + Split(s, ',')[1..]
    decreases |s|
  {
    if |s| > 0 {
      assert '"' !in s[1..] by { assert s == [s[0]] + s[1..]; }
      if s[0] == ',' {
        ScanNoQuotes(s[1..], "", row + [cur]);
        NoQuotesComma(s, cur, row);
      } else {
        ScanNoQuotes(s[1..], cur + [s[0]], row);
        NoQuotesChar(s, cur, row);
      }
    } else {
      assert cur + Split(s, ',')[0] == cur;
      assert row + [cur] + Split(s, ',')[1..] == row + [cur];
    }
  }

  /** A line without `"` parses exactly like `line.split(',')`, so it has one more
      field than it has commas. */
  lemma ParseLineNoQuotes(line: string)
    requires '"' !in line
    ensures ParseLine(line) == Split(line, ',')
    ensures |ParseLine(line)| == Count(line, ',') + 1
  {
    ScanNoQuotes(line, "", []);
    var parts := Split(line, ',');
    assert "" + parts[0] == parts[0];
    assert [] + [parts[0]] + parts[1..] == parts;
    SplitParts(line, ',');
  }

  // ---------------------------------------------------------------- escaping one answer

  /** `.replace(/"/g, '""')` */
  function DoubleQuotes(s: string): string
  {
    ReplaceChar(s, '"', "\"\"")
  }

  /** The comma replacement: `,` becomes the full-width `，`. */
  function WideCommas(s: string): string
  {
    ReplaceChar(s, ',', "，")
  }

  /** `String(answer).replace(/"/g, '""').replace(/,/g, '，')`: an escaped answer
      holds no comma, and holds a quote exactly when the answer does. */
  function SafeAnswer(a: string): (r: string)
    ensures ',' !in r
    ensures '"' in r <==> '"' in a
  {
    ReplaceCharRemoves(DoubleQuotes(a), ',', "，");
    ReplaceCharKeeps(DoubleQuotes(a), ',', "，", '"');
    ReplaceCharSame(a, '"', "\"\"");
    WideCommas(DoubleQuotes(a))
  }

  /** `safeAnswer.includes('"') || safeAnswer.includes(',') ? `"${safeAnswer}"` : safeAnswer`:
      an answer with a quote is written quoted, any other with its commas made
      full-width and nothing else changed. */
  function FormatAnswer(a: string): (r: string)
    ensures ',' !in r
    ensures '"' in a ==> r == "\"" + SafeAnswer(a) + "\""
    ensures '"' !in a ==> r == WideCommas(a)
  {
    var safe := SafeAnswer(a);
    if '"' in safe || ',' in safe then "\"" + safe + "\""
    else
      ReplaceCharAbsent(a, '"', "\"\"");
      safe
  }

  lemma {:induction false} ReplaceCharConcat(x: string, y: string, a: char, b: string)
    ensures ReplaceChar(x + y, a, b) == ReplaceChar(x, a, b) + ReplaceChar(y, a, b)
    decreases |x|
  {
    if |x| > 0 {
      assert (x + y)[1..] == x[1..] + y;
      ReplaceCharConcat(x[1..], y, a, b);
    } else {
      assert x + y == y;
    }
  }

  /** The two replacements commute. */
  lemma {:induction false} ReplacementsCommute(a: string)
    ensures SafeAnswer(a) == DoubleQuotes(WideCommas(a))
    decreases |a|
  {
    if |a| > 0 {
      ReplacementsCommute(a[1..]);
      var head := if a[0] == '"' then "\"\"" else [a[0]];
      ReplaceCharConcat(head, DoubleQuotes(a[1..]), ',', "，");
      var wide := if a[0] == ',' then "，" else [a[0]];
      ReplaceCharConcat(wide, WideCommas(a[1..]), '"', "\"\"");
    }
  }

  /** Replacing `a` by a text without `a` leaves no `a`. */
  lemma {:induction false} ReplaceCharRemoves(s: string, a: char, b: string)
    requires a !in b
    ensures a !in ReplaceChar(s, a, b)
    decreases |s|
  {
    if |s| > 0 {
      ReplaceCharRemoves(s[1..], a, b);
    }
  }

  /** Replacing `a` by a text holding `a` keeps `a` exactly where there was one. */
  lemma {:induction false} ReplaceCharSame(s: string, a: char, b: string)
    requires a in b
    ensures a in ReplaceChar(s, a, b) <==> a in s
    decreases |s|
  {
    if |s| > 0 {
      ReplaceCharSame(s[1..], a, b);
      assert s == [s[0]] + s[1..];
    }
  }

  /** A field of plain text reads back as it is, up to the next comma. */
  lemma {:induction false} ScanPlain(s: string, rest: string, q: bool, cur: string, row: seq<string>)
    requires '"' !in s && ',' !in s
    ensures Scan(s + rest, q, cur, row) == Scan(rest, q, cur + s, row)
    decreases |s|
  {
    if |s| > 0 {
      assert (s + rest)[1..] == s[1..] + rest;
      assert '"' !in s[1..] && ',' !in s[1..] by { assert forall c :: c in s[1..] ==> c in s; }
      ScanPlain(s[1..], rest, q, cur + [s[0]], row);
      assert cur + [s[0]] + s[1..] == cur + s;
    } else {
      assert s + rest == rest;
      assert cur + s == cur;
    }
  }

  /** Inside quotes, `""` stands for one `"`. */
  lemma ScanEscapedQuote(x: string, cur: string, row: seq<string>)
    ensures Scan("\"\"" + x, true, cur, row) == Scan(x, true, cur + "\"", row)
  {
    assert ("\"\"" + x)[2..] == x;
  }

  /** Any character other than `"`, and other than `,` outside quotes, joins the field. */
  lemma ScanChar(c: char, x: string, q: bool, cur: string, row: seq<string>)
    requires c != '"' && (q || c != ',')
    ensures Scan([c] + x, q, cur, row) == Scan(x, q, cur + [c], row)
  {
    assert ([c] + x)[1..] == x;
  }

  /** A closing quote not followed by another one ends quoting. */
  lemma ScanClose(rest: string, cur: string, row: seq<string>)
    requires |rest| == 0 || rest[0] != '"'
    ensures Scan("\"" + rest, true, cur, row) == Scan(rest, false, cur, row)
  {
    var t := "\"" + rest;
    assert t[1..] == rest;
    assert |t| > 1 ==> t[1] == rest[0];
  }

  lemma DoubleQuotesCons(a: string, rest: string)
    requires |a| > 0
    ensures DoubleQuotes(a) + "\"" + rest
            == (if a[0] == '"' then "\"\"" else [a[0]]) + (DoubleQuotes(a[1..]) + "\"" + rest)
  {
  }

  /** Inside quotes, a doubled text followed by a closing quote reads back as the text. */
  lemma {:induction false} ScanQuoted(a: string, rest: string, cur: string, row: seq<string>)
    requires |rest| == 0 || rest[0] != '"'
    ensures Scan(DoubleQuotes(a) + "\"" + rest, true, cur, row) == Scan(rest, false, cur + a, row)
    decreases |a|
  {
    if |a| == 0 {
      assert DoubleQuotes(a) + "\"" + rest == "\"" + rest;
      ScanClose(rest, cur, row);
      assert cur + a == cur;
    } else {
      var tail := DoubleQuotes(a[1..]) + "\"" + rest;
      DoubleQuotesCons(a, rest);
      ScanQuoted(a[1..], rest, cur + [a[0]], row);
      if a[0] == '"' {
        ScanEscapedQuote(tail, cur, row);
      } else {
        ScanChar(a[0], tail, true, cur, row);
      }
      assert cur + [a[0]] + a[1..] == cur + a;
    }
  }

  /** An opening quote outside quotes is dropped and starts quoting. */
  lemma ScanOpen(x: string, cur: string, row: seq<string>)
    ensures Scan("\"" + x, false, cur, row) == Scan(x, true, cur, row)
  {
    assert ("\"" + x)[1..] == x;
  }

  /** A comma outside quotes ends the field. */
  lemma ScanComma(x: string, cur: string, row: seq<string>)
    ensures Scan("," + x, false, cur, row) == Scan(x, false, "", row + [cur])
  {
    assert ("," + x)[1..] == x;
  }

  /** An escaped answer reads back as the answer with its commas made full-width. */
  lemma EscapedField(a: string, rest: string, row: seq<string>)
    requires |rest| == 0 || rest[0] == ','
    ensures Scan(FormatAnswer(a) + rest, false, "", row) == Scan(rest, false, WideCommas(a), row)
  {
    if '"' in a {
      EscapedQuoted(a, rest, row);
    } else {
      EscapedPlain(a, rest, row);
    }
  }

  /** An answer with a quote is read back from between its quotes. */
  lemma EscapedQuoted(a: string, rest: string, row: seq<string>)
    requires '"' in a && (|rest| == 0 || rest[0] == ',')
    ensures Scan(FormatAnswer(a) + rest, false, "", row) == Scan(rest, false, WideCommas(a), row)
  {
    var w := WideCommas(a);
    ReplacementsCommute(a);
    var x := DoubleQuotes(w) + "\"" + rest;
    assert FormatAnswer(a) + rest == "\"" + x;
    ScanOpen(x, "", row);
    ScanQuoted(w, rest, "", row);
    assert "" + w == w;
  }

  /** An answer without a quote is read back as written. */
  lemma EscapedPlain(a: string, rest: string, row: seq<string>)
    requires '"' !in a
    ensures Scan(FormatAnswer(a) + rest, false, "", row) == Scan(rest, false, WideCommas(a), row)
  {
    var w := WideCommas(a);
    ReplaceCharKeeps(a, ',', "，", '"');
    ReplaceCharRemoves(a, ',', "，");
    ScanPlain(w, rest, false, "", row);
    assert "" + w == w;
  }

  /** Replacing `a` by a text without `c` neither adds nor removes a `c` (`c` other than `a`). */
  lemma {:induction false} ReplaceCharKeeps(s: string, a: char, b: string, c: char)
    requires c != a && c !in b
    ensures c in ReplaceChar(s, a, b) <==> c in s
    decreases |s|
  {
    if |s| > 0 {
      ReplaceCharKeeps(s[1..], a, b, c);
      assert s == [s[0]] + s[1..];
    }
  }

  /** Replacing a character that does not occur changes nothing. */
  lemma {:induction false} ReplaceCharAbsent(s: string, a: char, b: string)
    requires a !in s
    ensures ReplaceChar(s, a, b) == s
    decreases |s|
  {
    if |s| > 0 {
      assert a !in s[1..] by { assert forall c :: c in s[1..] ==> c in s; }
      ReplaceCharAbsent(s[1..], a, b);
      assert [s[0]] + s[1..] == s;
    }
  }

  function FormatAll(fields: seq<string>): (r: seq<string>)
    ensures |r| == |fields| && forall i :: 0 <= i < |fields| ==> r[i] == FormatAnswer(fields[i])
  {
    seq(|fields|, i requires 0 <= i < |fields| => FormatAnswer(fields[i]))
  }

  function WideAll(fields: seq<string>): (r: seq<string>)
    ensures |r| == |fields| && forall i :: 0 <= i < |fields| ==> r[i] == WideCommas(fields[i])
  {
    seq(|fields|, i requires 0 <= i < |fields| => WideCommas(fields[i]))
  }

  /** An escaped answer and its separating comma make one finished field. */
  lemma EscapedThenComma(a: string, j: string, row: seq<string>)
    ensures Scan(FormatAnswer(a) + ("," + j), false, "", row) == Scan(j, false, "", row + [WideCommas(a)])
  {
    EscapedField(a, "," + j, row);
    ScanComma(j, WideCommas(a), row);
  }

  lemma JoinCons(parts: seq<string>, sep: string)
    requires |parts| > 1
    ensures Join(parts, sep) == parts[0] + (sep + Join(parts[1..], sep))
  {
  }

  lemma FormatAllCons(fields: seq<string>)
    requires |fields| > 0
    ensures FormatAll(fields)[0] == FormatAnswer(fields[0])
    ensures FormatAll(fields)[1..] == FormatAll(fields[1..])
    ensures WideAll(fields) == [WideCommas(fields[0])] + WideAll(fields[1..])
  {
  }

  /** The last answer of a line reads back as the last field. */
  lemma ScanJoinedOne(f: string, row: seq<string>)
    ensures Scan(Join(FormatAll([f]), ","), false, "", row) == row + WideAll([f])
  {
    EscapedField(f, "", row);
    assert Join(FormatAll([f]), ",") == FormatAnswer(f) + "";
  }

  /** One escaped answer and a comma in front of a text that reads back as `tail`. */
  lemma ScanFieldThen(x: string, f: string, j: string, row: seq<string>, tail: seq<string>)
    requires x == FormatAnswer(f) + ("," + j)
    requires Scan(j, false, "", row + [WideCommas(f)]) == row + [WideCommas(f)] + tail
    ensures Scan(x, false, "", row) == row + ([WideCommas(f)] + tail)
  {
    EscapedThenComma(f, j, row);
  }

  lemma JoinFormatCons(fields: seq<string>)
    requires |fields| > 1
    ensures Join(FormatAll(fields), ",") == FormatAnswer(fields[0]) + ("," + Join(FormatAll(fields[1..]), ","))
    ensures WideAll(fields) == [WideCommas(fields[0])] + WideAll(fields[1..])
  {
    FormatAllCons(fields);
    JoinCons(FormatAll(fields), ",");
  }

  lemma {:induction false} ScanJoined(fields: seq<string>, row: seq<string>)
    requires |fields| > 0
    ensures Scan(Join(FormatAll(fields), ","), false, "", row) == row + WideAll(fields)
    decreases |fields|
  {
    if |fields| == 1 {
      ScanJoinedOne(fields[0], row);
      assert fields == [fields[0]];
    } else {
      ScanJoined(fields[1..], row + [WideCommas(fields[0])]);
      JoinFormatCons(fields);
      ScanFieldThen(Join(FormatAll(fields), ","), fields[0], Join(FormatAll(fields[1..]), ","), row, WideAll(fields[1..]));
    }
  }

  /** Reading a line of escaped answers gives back every answer, with commas made
      full-width: the writer and the reader agree on every answer without line breaks. */
  lemma ParseFormattedRow(fields: seq<string>)
    requires |fields| > 0
    ensures ParseLine(Join(FormatAll(fields), ",")) == WideAll(fields)
  {
    ScanJoined(fields, []);
  }
}
