/** The CSV writer of the exports, and a reader following rules 5 to 7 of section 2 of RFC 4180
    with LF record ends that recovers every field from its output. */
module CsvExport {
  import opened Wrappers

  /** A row gives some columns a text; null and undefined values have none. */
  type Row = map<string, Option<string>>

  predicate Special(c: char) { c == '"' || c == ',' || c == '\r' || c == '\n' }

  function DoubleQuotes(s: string): string {
    if s == [] then []
    else (if s[0] == '"' then ['"', '"'] else [s[0]]) + DoubleQuotes(s[1..])
  }

  predicate NeedsQuotes(raw: string) { exists k :: 0 <= k < |raw| && Special(raw[k]) }

  function EscapeField(raw: string): string {
    if NeedsQuotes(raw) then ['"'] + DoubleQuotes(raw) + ['"'] else raw
  }

  function EscapeCsvField(value: Option<string>): string {
    if value.None? then "" else EscapeField(value.value)
  }

  function JoinFields(fields: seq<string>): string {
    if fields == [] then []
    else if |fields| == 1 then EscapeField(fields[0])
    else EscapeField(fields[0]) + [','] + JoinFields(fields[1..])
  }

  function RecordText(fields: seq<string>): string { JoinFields(fields) + ['\n'] }

  function FieldText(row: Row, column: string): string {
    if column in row && row[column].Some? then row[column].value else ""
  }

  /** The texts of one row, column by column. */
  function RowTexts(columns: seq<string>, row: Row): (r: seq<string>)
    ensures |r| == |columns|
  {
    seq(|columns|, k requires 0 <= k < |columns| => FieldText(row, columns[k]))
  }

  /** The table the export stands for: the header and one record per row. */
  function Table(columns: seq<string>, rows: seq<Row>): (t: seq<seq<string>>)
    ensures |t| == |rows| + 1
    ensures forall k :: 0 <= k < |t| ==> |t[k]| == |columns|
  {
    [columns] + seq(|rows|, k requires 0 <= k < |rows| => RowTexts(columns, rows[k]))
  }

  function TableText(table: seq<seq<string>>): string {
    if table == [] then [] else TableText(table[..|table| - 1]) + RecordText(table[|table| - 1])
  }

  /** One line of the writer: every column's value escaped and joined. */
  method WriteLine(columns: seq<string>, row: Row) returns (line: string)
    ensures line == JoinFields(RowTexts(columns, row))
  {
    line := [];
    var texts := RowTexts(columns, row);
    var i := |columns|;
    while i > 0
      invariant 0 <= i <= |columns|
      invariant line == JoinFields(texts[i..])
    {
      i := i - 1;
      var column := columns[i];
      var value := if column in row then row[column] else None;
      var field := EscapeCsvField(value);
      EmptyFieldIsPlain();
      assert field == EscapeField(texts[i]);
      assert texts[i..][1..] == texts[i + 1..];
      line := if i + 1 == |columns| then field else field + [','] + line;
    }
    assert texts[0..] == texts;
  }

  lemma EmptyFieldIsPlain()
    ensures EscapeField("") == ""
  {
  }

  /** The writer writes the header and then row after row. */
  method StreamCsv(columns: seq<string>, rows: seq<Row>) returns (written: string)
    ensures written == TableText(Table(columns, rows))
  {
    var table := Table(columns, rows);
    written := JoinFields(columns) + ['\n'];
    assert table[..1][..0] == [] && table[..1][0] == columns;
    var i := 0;
    while i < |rows|
      invariant 0 <= i <= |rows|
      invariant written == TableText(table[..i + 1])
    {
      var line := WriteLine(columns, rows[i]);
      written := written + (line + ['\n']);
      assert table[..i + 2][..i + 1] == table[..i + 1] && table[i + 1] == RowTexts(columns, rows[i]);
      i := i + 1;
    }
    assert table[..i + 1] == table;
  }

  // ---------------------------------------------------------------------------------------
  // The reader
  // ---------------------------------------------------------------------------------------

  datatype Read<T> = Read(value: T, rest: string)

  /** Inside quotes: two quotes are one, a single one closes. */
  function ReadQuoted(s: string): (r: Option<Read<string>>)
    ensures r.Some? ==> |r.value.rest| < |s|
  {
    if s == [] then None
    else if s[0] != '"' then
      match ReadQuoted(s[1..])
      case None => None
      case Some(r) => Some(Read([s[0]] + r.value, r.rest))
    else if |s| > 1 && s[1] == '"' then
      match ReadQuoted(s[2..])
      case None => None
      case Some(r) => Some(Read(['"'] + r.value, r.rest))
    else Some(Read([], s[1..]))
  }

  /** Outside quotes: up to the next comma or line end. */
  function ReadPlain(s: string): (r: Read<string>)
    ensures |r.rest| <= |s|
  {
    if s == [] || s[0] == ',' || s[0] == '\n' then Read([], s)
    else var r := ReadPlain(s[1..]); Read([s[0]] + r.value, r.rest)
  }

  function ReadField(s: string): (r: Option<Read<string>>)
    ensures r.Some? ==> |r.value.rest| <= |s|
  {
    if s != [] && s[0] == '"' then ReadQuoted(s[1..]) else Some(ReadPlain(s))
  }

  function ReadRecord(s: string): (r: Option<Read<seq<string>>>)
    ensures r.Some? ==> |r.value.rest| < |s|
    decreases |s|
  {
    match ReadField(s)
    case None => None
    case Some(f) =>
      if f.rest == [] then None
      else if f.rest[0] == '\n' then Some(Read([f.value], f.rest[1..]))
      else if f.rest[0] == ',' then
        match ReadRecord(f.rest[1..])
        case None => None
        case Some(r) => Some(Read([f.value] + r.value, r.rest))
      else None
  }

  function ReadTable(s: string): Option<seq<seq<string>>>
    decreases |s|
  {
    if s == [] then Some([])
    else
      match ReadRecord(s)
      case None => None
      case Some(r) =>
        match ReadTable(r.rest)
        case None => None
        case Some(records) => Some([r.value] + records)
  }

  // ---------------------------------------------------------------------------------------
  // Reading back
  // ---------------------------------------------------------------------------------------

  /** A field ends before a comma or a line end. */
  ghost predicate FieldEnds(rest: string) { rest != [] && (rest[0] == ',' || rest[0] == '\n') }

  /** One character inside quotes, doubled if it is a quote, is read as itself. */
  lemma ReadQuotedStep(c: char, tail: string)
    requires ReadQuoted(tail).Some?
    ensures ReadQuoted((if c == '"' then ['"', '"'] else [c]) + tail)
            == Some(Read([c] + ReadQuoted(tail).value.value, ReadQuoted(tail).value.rest))
  {
    var s := (if c == '"' then ['"', '"'] else [c]) + tail;
    assert s[if c == '"' then 2 else 1..] == tail;
  }

  lemma ReadQuotedEnd(rest: string)
    requires FieldEnds(rest)
    ensures ReadQuoted(['"'] + rest) == Some(Read([], rest))
  {
    assert (['"'] + rest)[1..] == rest;
  }

  lemma {:induction false} QuotedIsReadBack(raw: string, rest: string)
    requires FieldEnds(rest)
    ensures ReadQuoted(DoubleQuotes(raw) + ['"'] + rest) == Some(Read(raw, rest))
  {
    hide ReadQuoted;
    if raw == [] {
      ReadQuotedEnd(rest);
      assert DoubleQuotes(raw) + ['"'] + rest == ['"'] + rest;
    } else {
      var first := if raw[0] == '"' then ['"', '"'] else [raw[0]];
      var tail := DoubleQuotes(raw[1..]) + ['"'] + rest;
      QuotedIsReadBack(raw[1..], rest);
      ReadQuotedStep(raw[0], tail);
      assert DoubleQuotes(raw) + ['"'] + rest == first + tail;
      assert raw == [raw[0]] + raw[1..];
    }
  }

  lemma {:induction false} PlainIsReadBack(raw: string, rest: string)
    requires FieldEnds(rest) && forall k :: 0 <= k < |raw| ==> !Special(raw[k])
    ensures ReadPlain(raw + rest) == Read(raw, rest)
  {
    if raw == [] {
      assert raw + rest == rest;
    } else {
      PlainIsReadBack(raw[1..], rest);
      assert (raw + rest)[1..] == raw[1..] + rest;
      assert raw == [raw[0]] + raw[1..];
    }
  }

  lemma FieldIsReadBack(raw: string, rest: string)
    requires FieldEnds(rest)
    ensures ReadField(EscapeField(raw) + rest) == Some(Read(raw, rest))
  {
    hide ReadQuoted, ReadPlain, DoubleQuotes;
    var s := EscapeField(raw) + rest;
    if NeedsQuotes(raw) {
      QuotedIsReadBack(raw, rest);
      assert s[0] == '"' && s[1..] == DoubleQuotes(raw) + ['"'] + rest;
    } else {
      PlainIsReadBack(raw, rest);
      assert s[0] == if raw == [] then rest[0] else raw[0];
    }
  }

  lemma {:induction false} RecordIsReadBack(fields: seq<string>, rest: string)
    requires fields != []
    ensures ReadRecord(RecordText(fields) + rest) == Some(Read(fields, rest))
    decreases |fields|
  {
    hide EscapeField, ReadField;
    if |fields| == 1 {
      var tail := ['\n'] + rest;
      assert RecordText(fields) + rest == EscapeField(fields[0]) + tail;
      FieldIsReadBack(fields[0], tail);
      assert tail[1..] == rest && fields == [fields[0]];
    } else {
      var more := RecordText(fields[1..]) + rest;
      var tail := [','] + more;
      assert RecordText(fields) + rest == EscapeField(fields[0]) + tail;
      FieldIsReadBack(fields[0], tail);
      RecordIsReadBack(fields[1..], rest);
      assert tail[1..] == more && fields == [fields[0]] + fields[1..];
    }
  }

  lemma {:induction false} TextUncons(table: seq<seq<string>>)
    requires table != []
    ensures TableText(table) == RecordText(table[0]) + TableText(table[1..])
  {
    if |table| > 1 {
      var front := table[..|table| - 1];
      TextUncons(front);
      assert table[1..][..|table| - 2] == front[1..];
    } else {
      assert table[..0] == [] && table[1..] == [];
    }
  }

  /** A table whose records all have at least one field is recovered from its text. */
  lemma {:induction false} TableIsReadBack(table: seq<seq<string>>)
    requires forall k :: 0 <= k < |table| ==> table[k] != []
    ensures ReadTable(TableText(table)) == Some(table)
    decreases |table|
  {
    hide RecordText, ReadRecord;
    if table != [] {
      TextUncons(table);
      RecordIsReadBack(table[0], TableText(table[1..]));
      RecordIsNotEmpty(table[0]);
      TableIsReadBack(table[1..]);
      assert table == [table[0]] + table[1..];
    }
  }

  lemma RecordIsNotEmpty(fields: seq<string>)
    ensures RecordText(fields) != []
  {
  }

  /** CSV text determines the table: for any positive column count the reader recovers every
      field text of the writer's output. */
  lemma ExportIsReadBack(columns: seq<string>, rows: seq<Row>)
    requires columns != []
    ensures ReadTable(TableText(Table(columns, rows))) == Some(Table(columns, rows))
  {
    TableIsReadBack(Table(columns, rows));
  }

  /** What the reader recovers, cell by cell: the header names the columns, and field k of record
      r + 1 is the text row r gives to column k, or empty where it gives none. */
  lemma CellsAreReadBack(columns: seq<string>, rows: seq<Row>, r: nat, k: nat)
    requires r < |rows| && k < |columns|
    ensures var table := ReadTable(TableText(Table(columns, rows)));
            && table.Some? && |table.value| == |rows| + 1
            && table.value[0] == columns
            && |table.value[r + 1]| == |columns|
            && table.value[r + 1][k]
               == if columns[k] in rows[r] && rows[r][columns[k]].Some? then rows[r][columns[k]].value else ""
  {
    hide TableText, ReadTable;
    ExportIsReadBack(columns, rows);
  }

  /** A field is quoted only if it holds a quote, a comma or a line end. */
  lemma QuotedIff(raw: string)
    ensures EscapeField(raw) != raw <==> '"' in raw || ',' in raw || '\r' in raw || '\n' in raw
  {
    if NeedsQuotes(raw) {
      var k :| 0 <= k < |raw| && Special(raw[k]);
      assert raw[k] in raw;
      DoublingLengthens(raw);
    }
  }

  lemma {:induction false} DoublingLengthens(s: string)
    ensures |DoubleQuotes(s)| >= |s|
  {
    if s != [] { DoublingLengthens(s[1..]); }
  }

  lemma ExportIsUnambiguous(columns: seq<string>, rows: seq<Row>, columns': seq<string>, rows': seq<Row>)
    requires columns != [] && columns' != []
    requires TableText(Table(columns, rows)) == TableText(Table(columns', rows'))
    ensures columns == columns' && Table(columns, rows) == Table(columns', rows')
  {
    hide Table, TableText, ReadTable;
    ExportIsReadBack(columns, rows);
    ExportIsReadBack(columns', rows');
    HeaderIsFirst(columns, rows);
    HeaderIsFirst(columns', rows');
  }

  lemma HeaderIsFirst(columns: seq<string>, rows: seq<Row>)
    ensures Table(columns, rows)[0] == columns
  {
  }

  ghost function Blank(n: nat, record: seq<string>): seq<seq<string>> {
    seq(n, _ => record)
  }

  lemma {:induction false} BlankRecordsLookAlike(n: nat)
    ensures TableText(Blank(n, [])) == TableText(Blank(n, [""]))
  {
    if n > 0 {
      BlankRecordsLookAlike(n - 1);
      EmptyFieldIsPlain();
      assert Blank(n, [])[..n - 1] == Blank(n - 1, []);
      assert Blank(n, [""])[..n - 1] == Blank(n - 1, [""]);
      assert RecordText([]) == RecordText([""]);
    }
  }

  /** Why the column count must be positive: an export without columns and with any number of
      rows has the text of exactly one table with columns, that of one column with an empty name
      and empty fields in as many rows. */
  lemma NoColumnsIsAmbiguous(rows: seq<Row>, columns: seq<string>, rows': seq<Row>)
    requires columns != []
    ensures TableText(Table([], rows)) == TableText(Table(columns, rows'))
            <==> Table(columns, rows') == Blank(|rows| + 1, [""])
  {
    hide TableText, ReadTable;
    var n := |rows| + 1;
    BlankRecordsLookAlike(n);
    assert Table([], rows) == Blank(n, []) by { NoColumnsNoTexts(rows); }
    TableIsReadBack(Table(columns, rows'));
    TableIsReadBack(Blank(n, [""]));
  }

  lemma NoColumnsNoTexts(rows: seq<Row>)
    ensures Table([], rows) == Blank(|rows| + 1, [])
  {
    var t := Table([], rows);
    assert forall k :: 0 <= k < |t| ==> t[k] == [];
  }
}
