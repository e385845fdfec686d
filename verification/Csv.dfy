/** Printing report rows as CSV (src/utils/csv.js), and the reader that must get them back: quoted
    text with comma and LF, in the style of section 2 of RFC 4180. */
module Csv {
  import opened Options

  /** An object: its keys in order, and its values (an absent key reads as a missing value). */
  datatype Row = Row(keys: seq<string>, values: map<string, Option<string>>)

  // ---- printing -----------------------------------------------------------------------------

  predicate NeedsQuotes(s: string) {
    '"' in s || ',' in s || '\n' in s
  }

  function DoubledChar(c: char): string {
    if c == '"' then "\"\"" else [c]
  }

  function Doubled(s: string): string {
    if s == "" then "" else DoubledChar(s[0]) + Doubled(s[1..])
  }

  function Quoted(s: string): string {
    if NeedsQuotes(s) then "\"" + Doubled(s) + "\"" else s
  }

  function Join(parts: seq<string>, separator: char): string {
    if parts == [] then "" else if |parts| == 1 then parts[0] else parts[0] + [separator] + Join(parts[1..], separator)
  }

  /** The text of a value; a missing one prints as nothing. */
  function Text(row: Row, key: string): string {
    if key in row.values && row.values[key].Some? then row.values[key].value else ""
  }

  function Texts(row: Row, headers: seq<string>): seq<string> {
    seq(|headers|, i requires 0 <= i < |headers| => Text(row, headers[i]))
  }

  function Table(rows: seq<Row>, headers: seq<string>): seq<seq<string>> {
    seq(|rows|, i requires 0 <= i < |rows| => Texts(rows[i], headers))
  }

  function AllQuoted(cells: seq<string>): seq<string> {
    seq(|cells|, i requires 0 <= i < |cells| => Quoted(cells[i]))
  }

  function Lines(table: seq<seq<string>>): seq<string> {
    seq(|table|, i requires 0 <= i < |table| => Join(AllQuoted(table[i]), ','))
  }

  /** Headers print as they are. */
  function Document(headers: seq<string>, table: seq<seq<string>>): string {
    Join([Join(headers, ',')] + Lines(table), '\n')
  }

  // ---- reading --------------------------------------------------------------------------------

  datatype Place = FieldStart | Bare | InQuotes | AfterQuote

  /** Reads the rest of a document into records; `field` and `record` are what has been read of
      the current ones. None for a quote where none may stand, or one that is never closed. */
  function Read(text: string, at: Place, field: string, record: seq<string>): Option<seq<seq<string>>> {
    if text == "" then
      if at == InQuotes then None else Some([record + [field]])
    else if at == InQuotes then
      if text[0] == '"' then Read(text[1..], AfterQuote, field, record) else Read(text[1..], InQuotes, field + [text[0]], record)
    else if text[0] == ',' then
      Read(text[1..], FieldStart, "", record + [field])
    else if text[0] == '\n' then
      match Read(text[1..], FieldStart, "", [])
      case None => None
      case Some(records) => Some([record + [field]] + records)
    else if text[0] == '"' then
      if at == FieldStart then Read(text[1..], InQuotes, "", record)
      else if at == AfterQuote then Read(text[1..], InQuotes, field + "\"", record)
      else None
    else if at == AfterQuote then None
    else Read(text[1..], Bare, field + [text[0]], record)
  }

  function ReadDocument(text: string): Option<seq<seq<string>>> {
    Read(text, FieldStart, "", [])
  }

  // ---- one field ------------------------------------------------------------------------------

  predicate Open(at: Place) {
    at == FieldStart || at == Bare
  }

  predicate FieldEnds(rest: string) {
    rest == "" || rest[0] == ',' || rest[0] == '\n'
  }

  lemma EndsAlike(rest: string, at: Place, field: string, record: seq<string>)
    requires FieldEnds(rest) && at != InQuotes
    ensures Read(rest, at, field, record) == Read(rest, Bare, field, record)
  {
  }

  lemma {:induction false} BareRun(s: string, rest: string, at: Place, field: string, record: seq<string>)
    requires !NeedsQuotes(s) && Open(at)
    ensures Read(s + rest, at, field, record) == Read(rest, if s == "" then at else Bare, field + s, record)
  {
    if s == "" {
      assert s + rest == rest && field + s == field;
    } else {
      assert (s + rest)[1..] == s[1..] + rest;
      assert field + [s[0]] + s[1..] == field + s;
      assert s[0] in s;
      BareRun(s[1..], rest, Bare, field + [s[0]], record);
    }
  }

  lemma QuotedChar(c: char, rest: string, field: string, record: seq<string>)
    ensures Read(DoubledChar(c) + rest, InQuotes, field, record) == Read(rest, InQuotes, field + [c], record)
  {
    var text := DoubledChar(c) + rest;
    if c == '"' {
      assert text[1..][1..] == rest;
    } else {
      assert text[1..] == rest;
    }
  }

  lemma {:induction false} QuotedRun(s: string, rest: string, field: string, record: seq<string>)
    ensures Read(Doubled(s) + rest, InQuotes, field, record) == Read(rest, InQuotes, field + s, record)
    decreases |s|
  {
    if s == "" {
      assert Doubled(s) + rest == rest && field + s == field;
    } else {
      assert Doubled(s) + rest == DoubledChar(s[0]) + (Doubled(s[1..]) + rest);
      QuotedChar(s[0], Doubled(s[1..]) + rest, field, record);
      QuotedRun(s[1..], rest, field + [s[0]], record);
      assert field + [s[0]] + s[1..] == field + s;
    }
  }

  lemma QuotedFieldReads(s: string, rest: string, record: seq<string>)
    requires FieldEnds(rest)
    ensures Read("\"" + Doubled(s) + "\"" + rest, FieldStart, "", record) == Read(rest, Bare, s, record)
  {
    var text := "\"" + Doubled(s) + "\"" + rest;
    assert text[1..] == Doubled(s) + ("\"" + rest);
    QuotedRun(s, "\"" + rest, "", record);
    assert "" + s == s;
    assert ("\"" + rest)[1..] == rest;
    EndsAlike(rest, AfterQuote, s, record);
  }

  /** A printed field reads as the field, wherever it ends. */
  lemma FieldReads(s: string, rest: string, record: seq<string>)
    requires FieldEnds(rest)
    ensures Read(Quoted(s) + rest, FieldStart, "", record) == Read(rest, Bare, s, record)
  {
    if NeedsQuotes(s) {
      QuotedFieldReads(s, rest, record);
    } else {
      BareRun(s, rest, FieldStart, "", record);
      assert "" + s == s;
      EndsAlike(rest, FieldStart, s, record);
    }
  }

  // ---- lines and documents ----------------------------------------------------------------------

  lemma LineSplits(cells: seq<string>, rest: string)
    requires |cells| > 1
    ensures Join(AllQuoted(cells), ',') + rest == Quoted(cells[0]) + ("," + (Join(AllQuoted(cells[1..]), ',') + rest))
  {
    assert AllQuoted(cells)[1..] == AllQuoted(cells[1..]);
  }

  lemma CommaReads(rest: string, field: string, record: seq<string>)
    ensures Read("," + rest, Bare, field, record) == Read(rest, FieldStart, "", record + [field])
  {
    assert ("," + rest)[1..] == rest;
  }

  lemma {:induction false} LineReads(cells: seq<string>, rest: string, record: seq<string>)
    requires cells != [] && FieldEnds(rest)
    ensures Read(Join(AllQuoted(cells), ',') + rest, FieldStart, "", record)
         == Read(rest, Bare, cells[|cells| - 1], record + cells[..|cells| - 1])
    decreases |cells|
  {
    if |cells| == 1 {
      FieldReads(cells[0], rest, record);
      assert record + cells[..0] == record;
    } else {
      var more := Join(AllQuoted(cells[1..]), ',') + rest;
      LineSplits(cells, rest);
      FieldReads(cells[0], "," + more, record);
      CommaReads(more, cells[0], record);
      LineReads(cells[1..], rest, record + [cells[0]]);
      assert record + [cells[0]] + cells[1..][..|cells| - 2] == record + cells[..|cells| - 1];
    }
  }

  ghost predicate Uniform(table: seq<seq<string>>) {
    forall i :: 0 <= i < |table| ==> table[i] != []
  }

  lemma TableSplits(table: seq<seq<string>>)
    requires |table| > 1
    ensures Join(Lines(table), '\n') == Join(AllQuoted(table[0]), ',') + ("\n" + Join(Lines(table[1..]), '\n'))
  {
    assert Lines(table)[1..] == Lines(table[1..]);
  }

  lemma NewlineReads(rest: string, field: string, record: seq<string>)
    requires ReadDocument(rest).Some?
    ensures Read("\n" + rest, Bare, field, record) == Some([record + [field]] + ReadDocument(rest).value)
  {
    assert ("\n" + rest)[1..] == rest;
  }

  lemma OneLineReads(cells: seq<string>)
    requires cells != []
    ensures ReadDocument(Join(AllQuoted(cells), ',')) == Some([cells])
  {
    var line, n := Join(AllQuoted(cells), ','), |cells| - 1;
    LineReads(cells, "", []);
    assert line + "" == line;
    assert [] + cells[..n] + [cells[n]] == cells;
  }

  lemma LineAndMoreRead(cells: seq<string>, more: string, records: seq<seq<string>>)
    requires cells != [] && ReadDocument(more) == Some(records)
    ensures ReadDocument(Join(AllQuoted(cells), ',') + ("\n" + more)) == Some([cells] + records)
  {
    var n := |cells| - 1;
    LineReads(cells, "\n" + more, []);
    NewlineReads(more, cells[n], [] + cells[..n]);
    assert [] + cells[..n] + [cells[n]] == cells;
  }

  lemma {:induction false} TableReads(table: seq<seq<string>>)
    requires table != [] && Uniform(table)
    ensures ReadDocument(Join(Lines(table), '\n')) == Some(table)
    decreases |table|
  {
    if |table| == 1 {
      OneLineReads(table[0]);
      assert Lines(table) == [Join(AllQuoted(table[0]), ',')];
      assert table == [table[0]];
    } else {
      TableReads(table[1..]);
      TableSplits(table);
      LineAndMoreRead(table[0], Join(Lines(table[1..]), '\n'), table[1..]);
      assert [table[0]] + table[1..] == table;
    }
  }

  ghost predicate AllBare(headers: seq<string>) {
    forall i :: 0 <= i < |headers| ==> !NeedsQuotes(headers[i])
  }

  /** Documents whose headers need no quoting read back whole. */
  lemma BareHeadersReadBack(headers: seq<string>, table: seq<seq<string>>)
    requires headers != [] && AllBare(headers) && Uniform(table)
    ensures ReadDocument(Document(headers, table)) == Some([headers] + table)
  {
    assert AllQuoted(headers) == headers;
    assert Lines([headers] + table) == [Join(headers, ',')] + Lines(table);
    TableReads([headers] + table);
  }

  // ---- headers that do need quoting ---------------------------------------------------------------

  /** What has been read of the current record and field stays. */
  lemma {:induction false} WhatIsReadStays(text: string, at: Place, field: string, record: seq<string>)
    requires Read(text, at, field, record).Some?
    ensures var records := Read(text, at, field, record).value;
            records != [] && record < records[0] && (at != FieldStart ==> field <= records[0][|record|])
    decreases |text|
  {
    if text != "" {
      if at == InQuotes {
        if text[0] == '"' { WhatIsReadStays(text[1..], AfterQuote, field, record); }
        else { WhatIsReadStays(text[1..], InQuotes, field + [text[0]], record); }
      } else if text[0] == ',' {
        WhatIsReadStays(text[1..], FieldStart, "", record + [field]);
      } else if text[0] == '"' {
        if at == FieldStart { WhatIsReadStays(text[1..], InQuotes, "", record); }
        else { WhatIsReadStays(text[1..], InQuotes, field + "\"", record); }
      } else if text[0] != '\n' {
        WhatIsReadStays(text[1..], Bare, field + [text[0]], record);
      }
    }
  }

  lemma SeparatorEndsField(text: string, at: Place, field: string, record: seq<string>)
    requires at != InQuotes && FieldEnds(text) && Read(text, at, field, record).Some?
    ensures var records := Read(text, at, field, record).value;
            records != [] && |record| < |records[0]| && records[0][|record|] == field
  {
    if text != "" && text[0] == ',' {
      WhatIsReadStays(text[1..], FieldStart, "", record + [field]);
    }
  }

  /** Whatever is read from inside quotes stands there with its quotes doubled, and closed. */
  lemma {:induction false} QuotedValue(text: string, field: string, record: seq<string>) returns (value: string)
    requires Read(text, InQuotes, field, record).Some?
    ensures var records := Read(text, InQuotes, field, record).value;
            records != [] && |record| < |records[0]| && records[0][|record|] == field + value
    ensures Doubled(value) + "\"" <= text
    decreases |text|
  {
    if text[0] != '"' {
      var v := QuotedValue(text[1..], field + [text[0]], record);
      value := [text[0]] + v;
      assert field + [text[0]] + v == field + value;
      assert Doubled(value) + "\"" == [text[0]] + (Doubled(v) + "\"");
    } else if text[1..] != "" && text[1] == '"' {
      assert text[1..][1..] == text[2..];
      var v := QuotedValue(text[2..], field + "\"", record);
      value := "\"" + v;
      assert field + "\"" + v == field + value;
      assert Doubled(value) + "\"" == "\"\"" + (Doubled(v) + "\"");
    } else {
      value := "";
      SeparatorEndsField(text[1..], AfterQuote, field, record);
    }
  }

  lemma {:induction false} DoubledQuotes(h: string, i: nat)
    requires i <= |h| && forall j :: 0 <= j < i ==> h[j] == '"'
    ensures |Doubled(h)| >= |h| + i && forall j :: 0 <= j < 2 * i ==> Doubled(h)[j] == '"'
    decreases |h|
  {
    if h != "" {
      DoubledQuotes(h[1..], if i > 0 then i - 1 else 0);
      if i > 0 {
        assert Doubled(h) == "\"\"" + Doubled(h[1..]);
      }
    }
  }

  lemma {:induction false} NothingButQuotes(h: string, tail: string, i: nat)
    requires i <= |h| && (i > 0 ==> h[0] == '"') && h != "" && Doubled(h) + "\"" <= h[1..] + tail
    ensures forall j :: 0 <= j < i ==> h[j] == '"'
    decreases i
  {
    if i > 1 {
      NothingButQuotes(h, tail, i - 1);
      DoubledQuotes(h, i - 1);
      assert (Doubled(h) + "\"")[i - 2] == (h[1..] + tail)[i - 2];
      assert (h[1..] + tail)[i - 2] == h[i - 1];
    }
  }

  lemma PrefixAt(a: string, b: string, k: nat)
    requires a <= b && k < |a|
    ensures k < |b| && a[k] == b[k]
  {
  }

  /** A text that opens with a quote starts with its own quoted form only if more quotes follow. */
  lemma QuotesFollow(h: string, tail: string)
    requires h != "" && h[0] == '"' && Doubled(h) + "\"" <= h[1..] + tail
    ensures tail != "" && tail[0] == '"'
  {
    NothingButQuotes(h, tail, |h|);
    DoubledQuotes(h, |h|);
    var k := |h| - 1;
    PrefixAt(Doubled(h) + "\"", h[1..] + tail, k);
    assert (Doubled(h) + "\"")[k] == Doubled(h)[k];
    assert (h[1..] + tail)[k] == tail[0];
  }

  function FirstSpecial(s: string): (k: nat)
    requires NeedsQuotes(s)
    ensures k < |s| && s[k] in {'"', ',', '\n'} && !NeedsQuotes(s[..k])
  {
    if s[0] in {'"', ',', '\n'} then 0 else
    assert s == [s[0]] + s[1..];
    var k := FirstSpecial(s[1..]);
    assert s[..k + 1] == [s[0]] + s[1..][..k];
    k + 1
  }

  /** A field printed bare that should have been quoted never reads as itself. */
  lemma BadFieldIsLost(h: string, tail: string, record: seq<string>)
    requires NeedsQuotes(h) && FieldEnds(tail) && Read(h + tail, FieldStart, "", record).Some?
    ensures var records := Read(h + tail, FieldStart, "", record).value;
            records != [] && |record| < |records[0]| && records[0][|record|] != h
  {
    var k := FirstSpecial(h);
    if h[k] == '"' && k == 0 {
      assert (h + tail)[1..] == h[1..] + tail;
      var value := QuotedValue(h[1..] + tail, "", record);
      assert "" + value == value;
      if value == h { QuotesFollow(h, tail); }
    } else {
      var rest := h[k..] + tail;
      assert h + tail == h[..k] + rest;
      BareRun(h[..k], rest, FieldStart, "", record);
      assert "" + h[..k] == h[..k];
      SeparatorEndsField(rest, if k == 0 then FieldStart else Bare, h[..k], record);
    }
  }

  lemma {:induction false} BadHeadersAreLost(headers: seq<string>, rest: string, record: seq<string>)
    requires headers != [] && !AllBare(headers) && FieldEnds(rest)
    requires Read(Join(headers, ',') + rest, FieldStart, "", record).Some?
    ensures var records := Read(Join(headers, ',') + rest, FieldStart, "", record).value;
            records != [] && records[0] != record + headers
    decreases |headers|
  {
    var h := headers[0];
    var tail := if |headers| == 1 then rest else "," + (Join(headers[1..], ',') + rest);
    assert Join(headers, ',') + rest == h + tail;
    if NeedsQuotes(h) {
      BadFieldIsLost(h, tail, record);
    } else {
      FieldReads(h, tail, record);
      assert tail[1..] == Join(headers[1..], ',') + rest;
      BadHeadersAreLost(headers[1..], rest, record + [h]);
      assert record + [h] + headers[1..] == record + headers;
    }
  }

  /** A document reads back as its headers and cells, whatever the cells hold, exactly when no
      header needs quoting. */
  lemma ReadsBackIffHeadersAreBare(headers: seq<string>, table: seq<seq<string>>)
    requires headers != [] && Uniform(table)
    ensures ReadDocument(Document(headers, table)) == Some([headers] + table) <==> AllBare(headers)
  {
    if AllBare(headers) {
      BareHeadersReadBack(headers, table);
    } else if ReadDocument(Document(headers, table)).Some? {
      var head := Join(headers, ',');
      var rest := if table == [] then "" else "\n" + Join(Lines(table), '\n');
      assert ([head] + Lines(table))[1..] == Lines(table);
      assert Document(headers, table) == head + rest;
      BadHeadersAreLost(headers, rest, []);
      assert [] + headers == headers;
    }
  }

  /** The records are the headers and, for every row, its values in their order. */
  ghost predicate HoldsTheValues(records: seq<seq<string>>, rows: seq<Row>)
    requires rows != []
  {
    var headers := rows[0].keys;
    && |records| == 1 + |rows| && records[0] == headers
    && forall i :: 0 <= i < |rows| ==> |records[1 + i]| == |headers| && forall k :: 0 <= k < |headers| ==> HoldsTheValue(records[1 + i][k], rows[i], headers[k])
  }

  predicate HoldsTheValue(cell: string, row: Row, key: string) {
    if key in row.values then
      match row.values[key]
      case Some(value) => cell == value
      case None => cell == ""
    else cell == ""
  }

  lemma TableHoldsTheValues(rows: seq<Row>)
    requires rows != []
    ensures HoldsTheValues([rows[0].keys] + Table(rows, rows[0].keys), rows)
  {
    var records := [rows[0].keys] + Table(rows, rows[0].keys);
    forall i | 0 <= i < |rows|
      ensures |records[1 + i]| == |rows[0].keys| && forall k :: 0 <= k < |rows[0].keys| ==> HoldsTheValue(records[1 + i][k], rows[i], rows[0].keys[k])
    {
      assert records[1 + i] == Texts(rows[i], rows[0].keys);
    }
  }

  // ---- the printer ----------------------------------------------------------------------------------

  /** The columns are those of the first row; the text reads back as header and cells exactly when
      no header needs quoting. */
  method ToCsv(rows: seq<Row>) returns (csv: string)
    ensures rows == [] ==> csv == ""
    ensures rows != [] && rows[0].keys != [] ==>
              (ReadDocument(csv) == Some([rows[0].keys] + Table(rows, rows[0].keys)) <==> AllBare(rows[0].keys))
    // that is, cell by cell: the value of the row under the header, or nothing where there is none
    ensures rows != [] && rows[0].keys != [] && (forall h :: h in rows[0].keys ==> '"' !in h && ',' !in h && '\n' !in h) ==>
              ReadDocument(csv).Some? && HoldsTheValues(ReadDocument(csv).value, rows)
  {
    if rows != [] && rows[0].keys != [] { TableHoldsTheValues(rows); }
    if rows == [] { return ""; }
    var headers := rows[0].keys;
    var lines := [Join(headers, ',')];
    for i := 0 to |rows|
      invariant lines == [Join(headers, ',')] + Lines(Table(rows[..i], headers))
    {
      lines := lines + [Join(AllQuoted(Texts(rows[i], headers)), ',')];
      assert Table(rows[..i + 1], headers) == Table(rows[..i], headers) + [Texts(rows[i], headers)];
      LinesOneMore(Table(rows[..i], headers), Texts(rows[i], headers));
    }
    assert rows[..|rows|] == rows;
    csv := Join(lines, '\n');
    if headers != [] { ReadsBackIffHeadersAreBare(headers, Table(rows, headers)); }
  }

  lemma LinesOneMore(table: seq<seq<string>>, cells: seq<string>)
    ensures Lines(table + [cells]) == Lines(table) + [Join(AllQuoted(cells), ',')]
  {
  }
}
