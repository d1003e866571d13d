/** The upload side of the results administration page: the text preprocessing
    before the CSV reader, the UUID helpers, the mapping of header columns to
    question ids, and the wide-to-long transform of data rows into response
    records. */
module AdminUpload {
  import opened Seqs
  import opened JsCore
  import opened JsObject
  import opened AdminResults

  // ---------------------------------------------------------------- preprocessing

  const ByteOrderMark: char := '\U{FEFF}'

  /** A leading U+FEFF is dropped. */
  function StripBom(text: string): string
  {
    if |text| > 0 && text[0] == ByteOrderMark then text[1..] else text
  }

  /** The download puts a byte-order mark in front of the data; reading drops it again. */
  lemma StripBomOfDownload(data: string)
    ensures StripBom([ByteOrderMark] + data) == data
  {
    assert ([ByteOrderMark] + data)[1..] == data;
  }

  /** `.replace(/\r\n/g, '\n')` */
  function CrLfToLf(s: string): (t: string)
    ensures |t| <= |s|
    decreases |s|
  {
    if |s| == 0 then ""
    else if |s| > 1 && s[0] == '\r' && s[1] == '\n' then "\n" + CrLfToLf(s[2..])
    else [s[0]] + CrLfToLf(s[1..])
  }

  /** `.replace(/\r\n/g, '\n').replace(/\r/g, '\n')` */
  function NewlinesToLf(s: string): string
  {
    ReplaceChar(CrLfToLf(s), '\r', "\n")
  }

  /** After the newline normalisation no carriage return is left. */
  lemma NoCarriageReturns(s: string)
    ensures '\r' !in NewlinesToLf(s)
  {
    ReplaceCharRemoves(CrLfToLf(s), '\r', "\n");
  }

  /** A text without carriage returns is left as it is. */
  lemma {:induction false} NewlinesUnchanged(s: string)
    requires '\r' !in s
    ensures NewlinesToLf(s) == s
  {
    CrLfUnchanged(s);
    ReplaceCharAbsent(s, '\r', "\n");
  }

  lemma {:induction false} CrLfUnchanged(s: string)
    requires '\r' !in s
    ensures CrLfToLf(s) == s
    decreases |s|
  {
    if |s| > 0 {
      assert s == [s[0]] + s[1..];
      CrLfUnchanged(s[1..]);
    }
  }

  /** `lines.filter(line => !line.startsWith('#'))` */
  function NonCommentLines(lines: seq<string>): (r: seq<string>)
    ensures |r| <= |lines|
    ensures forall l :: l in r <==> l in lines && !StartsWith(l, "#")
  {
    if |lines| == 0 then []
    else
      var last := lines[|lines| - 1];
      assert lines == lines[..|lines| - 1] + [last];
      NonCommentLines(lines[..|lines| - 1]) + (if StartsWith(last, "#") then [] else [last])
  }

  /** The lines the reader looks at. */
  function TextLines(text: string): seq<string>
  {
    NonCommentLines(Split(NewlinesToLf(StripBom(text)), '\n'))
  }

  /** No line the reader looks at holds a line break or starts a comment. */
  lemma TextLinesClean(text: string)
    ensures forall l :: l in TextLines(text) ==> '\r' !in l && '\n' !in l && !StartsWith(l, "#")
  {
    var t := NewlinesToLf(StripBom(text));
    NoCarriageReturns(StripBom(text));
    SplitParts(t, '\n');
    forall l | l in TextLines(text)
      ensures '\r' !in l && '\n' !in l
    {
      var parts := Split(t, '\n');
      var i :| 0 <= i < |parts| && parts[i] == l;
      SplitPartIn(t, '\n', i, '\r');
    }
  }

  lemma {:induction false} NonCommentConcat(a: seq<string>, b: seq<string>)
    ensures NonCommentLines(a + b) == NonCommentLines(a) + NonCommentLines(b)
    decreases |b|
  {
    if |b| == 0 {
      assert a + b == a;
    } else {
      var b' := b[..|b| - 1];
      assert (a + b)[..|a + b| - 1] == a + b';
      NonCommentConcat(a, b');
    }
  }

  /** Comment lines only: nothing is kept. */
  lemma {:induction false} AllComments(lines: seq<string>)
    requires forall i :: 0 <= i < |lines| ==> StartsWith(lines[i], "#")
    ensures NonCommentLines(lines) == []
    decreases |lines|
  {
    if |lines| > 0 {
      AllComments(lines[..|lines| - 1]);
    }
  }

  /** No comment line: everything is kept. */
  lemma {:induction false} NoComments(lines: seq<string>)
    requires forall i :: 0 <= i < |lines| ==> !StartsWith(lines[i], "#")
    ensures NonCommentLines(lines) == lines
    decreases |lines|
  {
    if |lines| > 0 {
      NoComments(lines[..|lines| - 1]);
      assert lines == lines[..|lines| - 1] + [lines[|lines| - 1]];
    }
  }

  /** What the download writes, read back: a byte-order mark, then comment lines
      and content lines joined by line feeds, gives exactly the content lines. */
  lemma ReadBack(comments: seq<string>, lines: seq<string>)
    requires |comments| + |lines| > 0
    requires forall i :: 0 <= i < |comments| ==> StartsWith(comments[i], "#")
    requires forall i :: 0 <= i < |lines| ==> !StartsWith(lines[i], "#")
    requires forall l :: l in comments + lines ==> '\n' !in l && '\r' !in l
    ensures TextLines([ByteOrderMark] + Join(comments + lines, "\n")) == lines
  {
    var all := comments + lines;
    var text := Join(all, "\n");
    StripBomOfDownload(text);
    JoinWithout(all, "\n", '\r');
    NewlinesUnchanged(text);
    JoinSplit(all, '\n');
    NonCommentConcat(comments, lines);
    AllComments(comments);
    NoComments(lines);
  }

  /** A part of a split holds only characters of the text. */
  lemma {:induction false} SplitPartIn(s: string, sep: char, i: nat, c: char)
    requires i < |Split(s, sep)|
    requires c !in s
    ensures c !in Split(s, sep)[i]
    decreases |s|
  {
    if |s| > 0 {
      assert c !in s[1..] by { assert s == [s[0]] + s[1..]; }
      var rest := Split(s[1..], sep);
      if s[0] == sep {
        if i > 0 {
          SplitPartIn(s[1..], sep, i - 1, c);
        }
      } else if i == 0 {
        SplitPartIn(s[1..], sep, 0, c);
      } else {
        SplitPartIn(s[1..], sep, i, c);
      }
    }
  }

  /** The lines that are not blank. */
  function ContentLines(lines: seq<string>): (r: seq<string>)
    ensures |r| <= |lines|
    ensures forall l :: l in r <==> l in lines && !IsBlank(l)
  {
    if |lines| == 0 then []
    else
      var last := lines[|lines| - 1];
      assert lines == lines[..|lines| - 1] + [last];
      ContentLines(lines[..|lines| - 1]) + (if IsBlank(last) then [] else [last])
  }

  /** The rows read from the lines: blank lines are skipped, every other line is parsed. */
  function ParsedRows(lines: seq<string>): seq<seq<string>>
  {
    if |lines| == 0 then []
    else
      var last := lines[|lines| - 1];
      ParsedRows(lines[..|lines| - 1]) + (if IsBlank(last) then [] else [ParseLine(last)])
  }

  /** There is one row per non-blank line, and it is that line's fields. */
  lemma {:induction false} ParsedRowsAreLines(lines: seq<string>)
    ensures |ParsedRows(lines)| == |ContentLines(lines)|
    ensures forall i :: 0 <= i < |ParsedRows(lines)| ==> ParsedRows(lines)[i] == ParseLine(ContentLines(lines)[i])
    decreases |lines|
  {
    if |lines| > 0 {
      ParsedRowsAreLines(lines[..|lines| - 1]);
    }
  }

  /** The reading loop over the lines, with the character loop for each line. */
  method ParseRows(lines: seq<string>) returns (rows: seq<seq<string>>)
    ensures rows == ParsedRows(lines)
  {
    rows := [];
    for i := 0 to |lines|
      invariant rows == ParsedRows(lines[..i])
    {
      assert lines[..i + 1][..i] == lines[..i];
      if !IsBlank(lines[i]) {
        var row := ParseCsvLine(lines[i]);
        rows := rows + [row];
      }
    }
    assert lines[..|lines|] == lines;
  }

  // ---------------------------------------------------------------- UUIDs

  predicate IsHex(c: char)
  {
    '0' <= c <= '9' || 'a' <= c <= 'f' || 'A' <= c <= 'F'
  }

  /** The positions of the hyphens in the 8-4-4-4-12 form. */
  predicate IsHyphenPosition(k: int)
  {
    k == 8 || k == 13 || k == 18 || k == 23
  }

  /** The 8-4-4-4-12 hexadecimal form of section 3 of RFC 4122, in either case. */
  predicate UuidShape(t: string)
  {
    |t| == 36 && forall k :: 0 <= k < 36 ==> if IsHyphenPosition(k) then t[k] == '-' else IsHex(t[k])
  }

  /** A UUID starts at index `i` of `s`. */
  predicate UuidAt(s: string, i: int)
  {
    0 <= i && i + 36 <= |s| && UuidShape(s[i..i + 36])
  }

  /** The leftmost index at or after `i` where a UUID starts. */
  function FirstUuidFrom(s: string, i: nat): (r: Option<nat>)
    ensures r.Some? ==> i <= r.value && UuidAt(s, r.value)
    ensures r.Some? ==> forall j :: i <= j < r.value ==> !UuidAt(s, j)
    ensures r.None? ==> forall j :: i <= j ==> !UuidAt(s, j)
    decreases |s| - i
  {
    if i + 36 > |s| then None
    else if UuidAt(s, i) then Some(i)
    else FirstUuidFrom(s, i + 1)
  }

  /** `str.match(/([0-9a-f]{8}-…-[0-9a-f]{12})/i)`: the leftmost UUID in `s`. */
  function MatchUuid(s: string): Option<string>
  {
    match FirstUuidFrom(s, 0)
    case Some(i) => Some(s[i..i + 36])
    case None => None
  }

  /** `isValidUUID`: the whole string is a UUID, or a UUID occurs in it; so it
      holds exactly for the strings holding a UUID somewhere. */
  predicate IsValidUuid(s: string)
    ensures IsValidUuid(s) <==> exists i :: UuidAt(s, i)
  {
    assert s != "" && UuidShape(s) ==> UuidAt(s, 0) by {
      if s != "" && UuidShape(s) {
        assert s[0..36] == s;
      }
    }
    (s != "" && UuidShape(s)) || MatchUuid(s).Some?
  }

  /** `extractOrGenerateUUID`: the leftmost UUID in `s`, or the generated one. */
  function ExtractOrGenerate(s: string, generated: string): (r: string)
    ensures (exists i :: UuidAt(s, i)) ==> UuidShape(r)
    ensures (forall i :: !UuidAt(s, i)) ==> r == generated
  {
    match MatchUuid(s)
    case Some(t) => t
    case None => generated
  }

  /** The leftmost UUID is what is extracted, and it is a UUID. */
  lemma ExtractLeftmost(s: string, generated: string)
    requires exists i :: UuidAt(s, i)
    ensures exists i :: UuidAt(s, i) && ExtractOrGenerate(s, generated) == s[i..i + 36]
                        && forall j :: 0 <= j < i ==> !UuidAt(s, j)
    ensures UuidShape(ExtractOrGenerate(s, generated))
  {
    var i :| UuidAt(s, i);
    assert FirstUuidFrom(s, 0).Some?;
  }

  /** The upload converts only ids that `isValidUUID` rejects, so extraction finds
      nothing and a generated id is always used. */
  lemma InvalidIdsAreGenerated(s: string, generated: string)
    requires !IsValidUuid(s)
    ensures ExtractOrGenerate(s, generated) == generated
  {
  }

  // ---------------------------------------------------------------- header columns

  /** `headers.findIndex(h => h.toLowerCase() === name)` from index `k` on, -1 when absent. */
  function FindHeaderFrom(headers: seq<string>, name: string, k: nat): (i: int)
    requires k <= |headers|
    ensures i == -1 || k <= i < |headers|
    ensures i >= 0 ==> ToLower(headers[i]) == name
    ensures forall j :: k <= j < |headers| && (i == -1 || j < i) ==> ToLower(headers[j]) != name
    decreases |headers| - k
  {
    if k == |headers| then -1
    else if ToLower(headers[k]) == name then k
    else FindHeaderFrom(headers, name, k + 1)
  }

  function FindHeader(headers: seq<string>, name: string): (i: int)
    ensures -1 <= i < |headers|
    ensures i >= 0 ==> ToLower(headers[i]) == name && forall j :: 0 <= j < i ==> ToLower(headers[j]) != name
    ensures i == -1 <==> forall j :: 0 <= j < |headers| ==> ToLower(headers[j]) != name
  {
    FindHeaderFrom(headers, name, 0)
  }

  /** `questionIdToUUID`: each database question's `question_id` to its `id`, the later row winning. */
  function IdMap(db: seq<(string, string)>): (d: Dict<string>)
    ensures Valid(d)
  {
    if |db| == 0 then Empty()
    else
      var d := IdMap(db[..|db| - 1]);
      PutValid(d, db[|db| - 1].0, db[|db| - 1].1);
      Put(d, db[|db| - 1].0, db[|db| - 1].1)
  }

  /** The last index of a row with question id `q`. */
  function LastRow(db: seq<(string, string)>, q: string): (r: Option<nat>)
    ensures r.Some? ==> r.value < |db| && db[r.value].0 == q
    ensures r.Some? ==> forall j :: r.value < j < |db| ==> db[j].0 != q
    ensures r.None? ==> forall j :: 0 <= j < |db| ==> db[j].0 != q
  {
    if |db| == 0 then None
    else if db[|db| - 1].0 == q then Some(|db| - 1)
    else LastRow(db[..|db| - 1], q)
  }

  /** The map holds exactly the listed question ids, each with the id of its last row. */
  lemma {:induction false} IdMapLast(db: seq<(string, string)>, q: string)
    ensures q in IdMap(db).m <==> LastRow(db, q).Some?
    ensures q in IdMap(db).m ==> IdMap(db).m[q] == db[LastRow(db, q).value].1
    decreases |db|
  {
    if |db| > 0 {
      var n := |db| - 1;
      if db[n].0 != q {
        IdMapLast(db[..n], q);
      }
    }
  }

  /** Where a header column goes: its trimmed text looked up in the id map, or the
      text itself when it holds a UUID; nothing for a blank header. */
  function ColumnTarget(h: string, ids: Dict<string>): (r: Option<string>)
    ensures r.Some? ==> r.value != ""
  {
    var q := Trim(h);
    if q == "" then None
    else if q in ids.m && ids.m[q] != "" then Some(ids.m[q])
    else if IsValidUuid(q) then Some(q)
    else None
  }

  /** The column target for every header, given the id map. */
  function TargetOf(ids: Dict<string>): string -> Option<string>
  {
    h => ColumnTarget(h, ids)
  }

  datatype Column = Column(colIndex: nat, uuidId: string)

  /** `questionIndices` after the first `n` header columns, each column's target given by `target`. */
  function QuestionIndices(headers: seq<string>, rid: int, ts: int, target: string -> Option<string>, n: nat): Dict<Column>
    requires n <= |headers|
  {
    if n == 0 then Empty()
    else
      var d := QuestionIndices(headers, rid, ts, target, n - 1);
      var i := n - 1;
      if i != rid && i != ts && target(headers[i]).Some? then Put(d, Trim(headers[i]), Column(i, target(headers[i]).value))
      else d
  }

  lemma {:induction false} QuestionIndicesValid(headers: seq<string>, rid: int, ts: int, target: string -> Option<string>, n: nat)
    requires n <= |headers|
    ensures Valid(QuestionIndices(headers, rid, ts, target, n))
    decreases n
  {
    if n > 0 {
      var i := n - 1;
      QuestionIndicesValid(headers, rid, ts, target, n - 1);
      if i != rid && i != ts && target(headers[i]).Some? {
        PutValid(QuestionIndices(headers, rid, ts, target, n - 1), Trim(headers[i]), Column(i, target(headers[i]).value));
      }
    }
  }

  /** Column `c` is one of the first `n` header columns, neither the respondent
      nor the timestamp column, headed by `q` once trimmed, with its target. */
  predicate MappedAt(headers: seq<string>, rid: int, ts: int, target: string -> Option<string>, n: nat, q: string, c: Column)
  {
    c.colIndex < n <= |headers| && c.colIndex != rid && c.colIndex != ts
    && Trim(headers[c.colIndex]) == q && target(headers[c.colIndex]) == Some(c.uuidId)
  }

  /** Every mapped question sits in a column other than the respondent and
      timestamp columns, under its trimmed header text, with that column's target. */
  lemma {:induction false} MappedColumnsSound(headers: seq<string>, rid: int, ts: int, target: string -> Option<string>,
                                              n: nat, q: string)
    requires n <= |headers|
    requires q in QuestionIndices(headers, rid, ts, target, n).m
    ensures MappedAt(headers, rid, ts, target, n, q, QuestionIndices(headers, rid, ts, target, n).m[q])
    decreases n
  {
    assert n > 0;
    var d, e, j := QuestionIndices(headers, rid, ts, target, n - 1), QuestionIndices(headers, rid, ts, target, n), n - 1;
    QuestionIndicesStep(headers, rid, ts, target, n);
    if j != rid && j != ts && target(headers[j]).Some? && Trim(headers[j]) == q {
      assert e.m[q] == Column(j, target(headers[j]).value);
    } else {
      assert q in d.m && e.m[q] == d.m[q];
      MappedColumnsSound(headers, rid, ts, target, n - 1, q);
    }
  }

  /** The last column either maps `q` itself or leaves the entry of `q` as it was. */
  lemma SoundStep(headers: seq<string>, rid: int, ts: int, target: string -> Option<string>, n: nat, q: string)
    requires 0 < n <= |headers|
    requires q in QuestionIndices(headers, rid, ts, target, n).m
    ensures MappedAt(headers, rid, ts, target, n, q, QuestionIndices(headers, rid, ts, target, n).m[q])
         || (q in QuestionIndices(headers, rid, ts, target, n - 1).m
             && QuestionIndices(headers, rid, ts, target, n).m[q] == QuestionIndices(headers, rid, ts, target, n - 1).m[q])
  {
    var d := QuestionIndices(headers, rid, ts, target, n - 1);
    var i := n - 1;
    if i != rid && i != ts && target(headers[i]).Some? {
      var key := Trim(headers[i]);
      var c := Column(i, target(headers[i]).value);
      assert QuestionIndices(headers, rid, ts, target, n).m == d.m[key := c];
      if q == key {
        assert c.colIndex == i && target(headers[c.colIndex]) == Some(c.uuidId);
      }
    } else {
      assert QuestionIndices(headers, rid, ts, target, n) == d;
    }
  }

  /** Every column other than the respondent and timestamp columns that has a
      target is mapped under its trimmed header text, to it or to a later column. */
  lemma {:induction false} MappedColumnsComplete(headers: seq<string>, rid: int, ts: int, target: string -> Option<string>,
                                                 n: nat, i: nat)
    requires i < n <= |headers|
    requires i != rid && i != ts && target(headers[i]).Some?
    ensures Trim(headers[i]) in QuestionIndices(headers, rid, ts, target, n).m
    ensures i <= QuestionIndices(headers, rid, ts, target, n).m[Trim(headers[i])].colIndex
    decreases n
  {
    var d := QuestionIndices(headers, rid, ts, target, n - 1);
    var k := Trim(headers[i]);
    QuestionIndicesStep(headers, rid, ts, target, n);
    if i < n - 1 {
      MappedColumnsComplete(headers, rid, ts, target, n - 1, i);
      assert k in d.m && i <= d.m[k].colIndex;
    }
  }

  /** One column of the mapping loop: it is stored under its trimmed header,
      over any earlier column of that header, or skipped. */
  lemma QuestionIndicesStep(headers: seq<string>, rid: int, ts: int, target: string -> Option<string>, n: nat)
    requires 0 < n <= |headers|
    ensures var d, e, j := QuestionIndices(headers, rid, ts, target, n - 1), QuestionIndices(headers, rid, ts, target, n), n - 1;
      if j != rid && j != ts && target(headers[j]).Some?
      then e.m == d.m[Trim(headers[j]) := Column(j, target(headers[j]).value)]
      else e == d
  {
  }

  /** `questionIndices` after all header columns. */
  function MappedQuestions(headers: seq<string>, rid: int, ts: int, target: string -> Option<string>): (d: Dict<Column>)
    ensures Valid(d)
  {
    QuestionIndicesValid(headers, rid, ts, target, |headers|);
    QuestionIndices(headers, rid, ts, target, |headers|)
  }

  /** The column-mapping loop. */
  method MapColumns(headers: seq<string>, rid: int, ts: int, ids: Dict<string>) returns (qi: Dict<Column>)
    ensures qi == MappedQuestions(headers, rid, ts, TargetOf(ids))
  {
    qi := Empty();
    for i := 0 to |headers|
      invariant qi == QuestionIndices(headers, rid, ts, TargetOf(ids), i)
    {
      if i != rid && i != ts {
        var target := ColumnTarget(headers[i], ids);
        if target.Some? {
          qi := Put(qi, Trim(headers[i]), Column(i, target.value));
        }
      }
    }
  }

  // ---------------------------------------------------------------- wide to long

  datatype Response = Response(distributionId: string, questionId: string, answer: string, userId: string, submittedAt: string)

  /** The characters the upload strips from answers: C0 and C1 controls and DEL. */
  predicate IsControl(c: char)
  {
    c <= '\U{001F}' || '\U{007F}' <= c <= '\U{009F}'
  }

  /** `String(cell).trim().replace(/[\u0000-\u001F\u007F-\u009F]/g, '')` */
  function CleanAnswer(cell: string): (a: string)
    ensures forall i :: 0 <= i < |a| ==> !IsControl(a[i])
  {
    RemoveChars(Trim(cell), IsControl)
  }

  /** The respondent of a data row: none when the cell is missing, blank or a
      comment; kept when it holds a UUID; otherwise the converted id. */
  function RespondentOf(row: seq<string>, rid: nat, generated: string): Option<string>
  {
    if rid >= |row| then None
    else
      var r := Trim(row[rid]);
      if r == "" || StartsWith(r, "#") then None
      else if IsValidUuid(r) then Some(r)
      else Some(ExtractOrGenerate(r, generated))
  }

  /** A kept row's respondent id is its trimmed cell when that holds a UUID, and
      the generated id otherwise. */
  lemma RespondentIds(row: seq<string>, rid: nat, generated: string)
    requires RespondentOf(row, rid, generated).Some?
    ensures rid < |row|
    ensures var r := Trim(row[rid]);
            r != "" && !StartsWith(r, "#")
            && RespondentOf(row, rid, generated).value == if IsValidUuid(r) then r else generated
  {
    if !IsValidUuid(Trim(row[rid])) {
      InvalidIdsAreGenerated(Trim(row[rid]), generated);
    }
  }

  /** The records of one kept row, one per mapped column inside the row, in entry order. */
  function RowRecords(row: seq<string>, user: string, entries: seq<(string, Column)>, dist: string, now: string): (r: seq<Response>)
    ensures forall k :: 0 <= k < |r| ==>
              r[k].distributionId == dist && r[k].userId == user && r[k].submittedAt == now && r[k].questionId != ""
  {
    if |entries| == 0 then []
    else
      var e := entries[|entries| - 1];
      RowRecords(row, user, entries[..|entries| - 1], dist, now)
      + (if e.1.colIndex < |row| && e.1.uuidId != ""
         then [Response(dist, e.1.uuidId, CleanAnswer(row[e.1.colIndex]), user, now)]
         else [])
  }

  /** The entries whose column the row reaches. */
  function Reached(row: seq<string>, entries: seq<(string, Column)>): (r: seq<(string, Column)>)
    ensures |r| <= |entries|
  {
    if |entries| == 0 then []
    else
      var e := entries[|entries| - 1];
      Reached(row, entries[..|entries| - 1]) + (if e.1.colIndex < |row| then [e] else [])
  }

  /** Every entry has a non-empty target id. */
  predicate Targeted(entries: seq<(string, Column)>)
  {
    forall i :: 0 <= i < |entries| ==> entries[i].1.uuidId != ""
  }

  /** With non-empty target ids, a row yields one record per reached column,
      holding that column's target and cleaned cell. */
  lemma {:induction false} RowRecordsShape(row: seq<string>, user: string, entries: seq<(string, Column)>, dist: string, now: string)
    requires Targeted(entries)
    ensures |RowRecords(row, user, entries, dist, now)| == |Reached(row, entries)|
    ensures forall i :: 0 <= i < |Reached(row, entries)| ==>
              var c := Reached(row, entries)[i].1;
              c.colIndex < |row|
              && RowRecords(row, user, entries, dist, now)[i] == Response(dist, c.uuidId, CleanAnswer(row[c.colIndex]), user, now)
    decreases |entries|
  {
    if |entries| > 0 {
      RowRecordsShape(row, user, entries[..|entries| - 1], dist, now);
    }
  }

  /** The records of the data rows, rows in order; `generated(i)` is the id made for row `i`. */
  function Transform(data: seq<seq<string>>, rid: nat, entries: seq<(string, Column)>, dist: string, now: string,
                     generated: nat -> string): (r: seq<Response>)
    ensures forall k :: 0 <= k < |r| ==> r[k].distributionId == dist && r[k].submittedAt == now && r[k].questionId != ""
  {
    if |data| == 0 then []
    else
      var i := |data| - 1;
      Transform(data[..i], rid, entries, dist, now, generated)
      + match RespondentOf(data[i], rid, generated(i))
        case None => []
        case Some(user) => RowRecords(data[i], user, entries, dist, now)
  }

  /** The number of records each data row contributes. */
  function RowCount(row: seq<string>, rid: nat, entries: seq<(string, Column)>): nat
  {
    if rid < |row| && Trim(row[rid]) != "" && !StartsWith(Trim(row[rid]), "#") then |Reached(row, entries)| else 0
  }

  /** A skipped row contributes nothing; a kept row one record per reached column. */
  lemma {:induction false} TransformCount(data: seq<seq<string>>, rid: nat, entries: seq<(string, Column)>, dist: string,
                                         now: string, generated: nat -> string)
    requires Targeted(entries)
    ensures |Transform(data, rid, entries, dist, now, generated)| == SumOf(row => RowCount(row, rid, entries), data)
    decreases |data|
  {
    if |data| > 0 {
      var i := |data| - 1;
      TransformCount(data[..i], rid, entries, dist, now, generated);
      match RespondentOf(data[i], rid, generated(i))
      case None =>
      case Some(user) => RowRecordsShape(data[i], user, entries, dist, now);
    }
  }

  /** The transform loop: rows in order, and for each kept row the entries in order. */
  method TransformRows(data: seq<seq<string>>, rid: nat, entries: seq<(string, Column)>, dist: string, now: string,
                       generated: nat -> string) returns (responses: seq<Response>)
    ensures responses == Transform(data, rid, entries, dist, now, generated)
  {
    responses := [];
    for rowIndex := 0 to |data|
      invariant responses == Transform(data[..rowIndex], rid, entries, dist, now, generated)
    {
      assert data[..rowIndex + 1][..rowIndex] == data[..rowIndex];
      var row := data[rowIndex];
      var user := RespondentOf(row, rid, generated(rowIndex));
      if user.Some? {
        var mine := RowResponses(row, user.value, entries, dist, now);
        responses := responses + mine;
      }
    }
    assert data[..|data|] == data;
  }

  /** The inner loop over the mapped entries of one row. */
  method RowResponses(row: seq<string>, user: string, entries: seq<(string, Column)>, dist: string, now: string)
    returns (rs: seq<Response>)
    ensures rs == RowRecords(row, user, entries, dist, now)
  {
    rs := [];
    for k := 0 to |entries|
      invariant rs == RowRecords(row, user, entries[..k], dist, now)
    {
      assert entries[..k + 1][..k] == entries[..k];
      var (_, c) := entries[k];
      if c.colIndex < |row| {
        var answer := CleanAnswer(row[c.colIndex]);
        if c.uuidId != "" {
          rs := rs + [Response(dist, c.uuidId, answer, user, now)];
        }
      }
    }
    assert entries[..|entries|] == entries;
  }

  // ---------------------------------------------------------------- the whole upload

  datatype Upload =
    | TooFewRows
    | NoRespondentColumn
    | NoMappedQuestions
    | Records(responses: seq<Response>)

  /** Every mapped entry has a non-empty target id. */
  lemma EntriesHaveTargets(headers: seq<string>, rid: int, ts: int, ids: Dict<string>)
    ensures Targeted(Entries(MappedQuestions(headers, rid, ts, TargetOf(ids))))
  {
    var qi := MappedQuestions(headers, rid, ts, TargetOf(ids));
    forall i | 0 <= i < |Entries(qi)|
      ensures Entries(qi)[i].1.uuidId != ""
    {
      MappedColumnsSound(headers, rid, ts, TargetOf(ids), |headers|, Entries(qi)[i].0);
    }
  }

  /** What the upload makes of the data rows under a header row. */
  function UploadRows(rows: seq<seq<string>>, db: seq<(string, string)>, dist: string, now: string, generated: nat -> string): Upload
  {
    if |rows| < 2 then TooFewRows
    else
      var headers := rows[0];
      var rid := FindHeader(headers, "respondent_id");
      var ts := FindHeader(headers, "timestamp");
      if rid == -1 then NoRespondentColumn
      else
        var qi := MappedQuestions(headers, rid, ts, TargetOf(IdMap(db)));
        if |Keys(qi)| == 0 then NoMappedQuestions
        else Records(Transform(rows[2..], rid, Entries(qi), dist, now, generated))
  }

  /** What the upload makes of the file text, given the database questions as
      (`question_id`, `id`) pairs, the distribution id, the submission time and
      the id generated for each data row. */
  function UploadOf(text: string, db: seq<(string, string)>, dist: string, now: string, generated: nat -> string): (r: Upload)
    ensures r.Records? ==> forall k :: 0 <= k < |r.responses| ==>
              r.responses[k].distributionId == dist && r.responses[k].submittedAt == now && r.responses[k].questionId != ""
  {
    UploadRows(ParsedRows(TextLines(text)), db, dist, now, generated)
  }

  /** The upload handler's steps in order. */
  method HandleUpload(text: string, db: seq<(string, string)>, dist: string, now: string, generated: nat -> string)
    returns (u: Upload)
    ensures u == UploadOf(text, db, dist, now, generated)
  {
    var rows := ParseRows(TextLines(text));
    if |rows| < 2 {
      return TooFewRows;
    }
    var headers := rows[0];
    var rid := FindHeader(headers, "respondent_id");
    var ts := FindHeader(headers, "timestamp");
    if rid == -1 {
      return NoRespondentColumn;
    }
    var qi := MapColumns(headers, rid, ts, IdMap(db));
    if |Keys(qi)| == 0 {
      return NoMappedQuestions;
    }
    var responses := TransformRows(rows[2..], rid, Entries(qi), dist, now, generated);
    return Records(responses);
  }

  /** The upload stops with too few rows exactly when fewer than two non-blank,
      non-comment lines remain. */
  lemma UploadTooFewRows(text: string, db: seq<(string, string)>, dist: string, now: string, generated: nat -> string)
    ensures UploadOf(text, db, dist, now, generated) == TooFewRows <==> |ContentLines(TextLines(text))| < 2
  {
    ParsedRowsAreLines(TextLines(text));
  }

  /** The upload stops for a missing respondent column exactly when no header reads
      `respondent_id` in any letter case. */
  lemma UploadNoRespondent(rows: seq<seq<string>>, db: seq<(string, string)>, dist: string, now: string, generated: nat -> string)
    ensures UploadRows(rows, db, dist, now, generated) == NoRespondentColumn
            <==> |rows| >= 2 && forall j :: 0 <= j < |rows[0]| ==> ToLower(rows[0][j]) != "respondent_id"
  {
  }

  /** The records number the sum of what each data row contributes. */
  lemma UploadCount(rows: seq<seq<string>>, db: seq<(string, string)>, dist: string, now: string, generated: nat -> string)
    requires UploadRows(rows, db, dist, now, generated).Records?
    ensures var rid := FindHeader(rows[0], "respondent_id");
            var qi := MappedQuestions(rows[0], rid, FindHeader(rows[0], "timestamp"), TargetOf(IdMap(db)));
            rid >= 0 && |UploadRows(rows, db, dist, now, generated).responses|
                        == SumOf(row => RowCount(row, rid, Entries(qi)), rows[2..])
  {
    var headers := rows[0];
    var rid := FindHeader(headers, "respondent_id");
    var ts := FindHeader(headers, "timestamp");
    EntriesHaveTargets(headers, rid, ts, IdMap(db));
    var qi := MappedQuestions(headers, rid, ts, TargetOf(IdMap(db)));
    assert UploadRows(rows, db, dist, now, generated).responses == Transform(rows[2..], rid, Entries(qi), dist, now, generated);
    TransformCount(rows[2..], rid, Entries(qi), dist, now, generated);
  }
}
