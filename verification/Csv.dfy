/**
 * The comma-separated text RECORD is written in: the default dialect of Python's `csv`
 * writer with line terminator "\n", and the non-strict reader run over the lines of the text.
 * Quoting follows section 2 of RFC 4180.
 */
module Csv {
  import opened Text

  datatype Parsed = Rows(rows: seq<seq<string>>) | NewlineInUnquotedField

  // ---------------------------------------------------------------- writer

  predicate MustQuote(field: string) {
    exists i | 0 <= i < |field| :: field[i] in {',', '"', '\n', '\r'}
  }

  function DoubleQuotes(field: string): string {
    if field == "" then ""
    else (if field[0] == '"' then "\"\"" else [field[0]]) + DoubleQuotes(field[1..])
  }

  function WriteField(field: string): string {
    if MustQuote(field) then "\"" + DoubleQuotes(field) + "\"" else field
  }

  function WriteFields(fields: seq<string>): string {
    if |fields| == 0 then ""
    else if |fields| == 1 then WriteField(fields[0])
    else WriteField(fields[0]) + "," + WriteFields(fields[1..])
  }

  /** One record without its end; a lone empty field is quoted so that it is not read back as an empty record. */
  function RowText(fields: seq<string>): string {
    if fields == [""] then "\"\"" else WriteFields(fields)
  }

  function WriteRow(fields: seq<string>): string {
    RowText(fields) + "\n"
  }

  function WriteRows(rows: seq<seq<string>>): string {
    if |rows| == 0 then "" else WriteRow(rows[0]) + WriteRows(rows[1..])
  }

  // ---------------------------------------------------------------- reader

  datatype State = StartRecord | StartField | InField | InQuotedField | QuoteInQuotedField | EatCrnl

  /** The reader between two characters: its state, the field being read and the fields read so far. */
  datatype Reader = Reader(state: State, field: string, fields: seq<string>)

  const Fresh := Reader(StartRecord, "", [])

  datatype Step = Continue(next: Reader) | Emit(row: seq<string>) | Fail

  function Keep(r: Reader, c: char, state: State): Step {
    Continue(r.(state := state, field := r.field + [c]))
  }

  function Save(r: Reader, state: State): Step {
    Continue(Reader(state, "", r.fields + [r.field]))
  }

  function Finish(r: Reader): Step {
    Emit(r.fields + [r.field])
  }

  /** One character. A line feed also ends the line, so it closes every record that is not inside quotes. */
  function Feed(r: Reader, c: char): Step {
    match r.state
    case StartRecord =>
      if c == '\n' then Emit([])
      else if c == '\r' then Continue(r.(state := EatCrnl))
      else FeedStartField(r, c)
    case StartField => FeedStartField(r, c)
    case InField =>
      if c == '\n' then Finish(r)
      else if c == '\r' then Save(r, EatCrnl)
      else if c == ',' then Save(r, StartField)
      else Keep(r, c, InField)
    case InQuotedField =>
      if c == '"' then Continue(r.(state := QuoteInQuotedField)) else Keep(r, c, InQuotedField)
    case QuoteInQuotedField =>
      if c == '"' then Keep(r, c, InQuotedField)
      else if c == ',' then Save(r, StartField)
      else if c == '\n' then Finish(r)
      else if c == '\r' then Save(r, EatCrnl)
      else Keep(r, c, InField)
    case EatCrnl =>
      if c == '\n' then Emit(r.fields)
      else if c == '\r' then Continue(r)
      else Fail
  }

  function FeedStartField(r: Reader, c: char): Step {
    if c == '\n' then Finish(r)
    else if c == '\r' then Save(r, EatCrnl)
    else if c == '"' then Continue(r.(state := InQuotedField))
    else if c == ',' then Save(r, StartField)
    else Keep(r, c, InField)
  }

  /** What is still pending when the text ends without a line feed. */
  function AtEnd(r: Reader): seq<seq<string>> {
    match r.state
    case StartRecord => []
    case EatCrnl => [r.fields]
    case _ => [r.fields + [r.field]]
  }

  function ReadFrom(r: Reader, text: string): Parsed
    decreases |text|
  {
    if text == "" then Rows(AtEnd(r))
    else
      match Feed(r, text[0])
      case Continue(next) => ReadFrom(next, text[1..])
      case Emit(row) => Prepend(row, ReadFrom(Fresh, text[1..]))
      case Fail => NewlineInUnquotedField
  }

  function Prepend(row: seq<string>, rest: Parsed): Parsed {
    if rest.Rows? then Rows([row] + rest.rows) else rest
  }

  function Read(text: string): Parsed {
    ReadFrom(Fresh, text)
  }

  // ---------------------------------------------------------------- round trip

  predicate AtFieldStart(r: Reader) {
    (r.state == StartField || (r.state == StartRecord && r.fields == [])) && r.field == ""
  }

  /** A field ends at a comma, at the end of its line, or with the text. */
  predicate EndsField(rest: string) {
    rest == "" || rest[0] in {',', '\n', '\r'}
  }

  /** Reading the body of a quoted field up to its closing quote. */
  lemma {:induction false} ReadQuoted(r: Reader, field: string, rest: string)
    requires r.state == InQuotedField
    ensures ReadFrom(r, DoubleQuotes(field) + "\"" + rest)
         == ReadFrom(r.(state := QuoteInQuotedField, field := r.field + field), rest)
    decreases |field|
  {
    var text := DoubleQuotes(field) + "\"" + rest;
    if field == "" {
      assert text[0] == '"' && text[1..] == rest;
      assert r.field + field == r.field;
    } else {
      var tail := DoubleQuotes(field[1..]) + "\"" + rest;
      var next := r.(field := r.field + [field[0]]);
      assert next.field + field[1..] == r.field + field;
      ReadQuoted(next, field[1..], rest);
      if field[0] == '"' {
        assert text == "\"\"" + tail;
        assert text[0] == '"' && text[1..] == "\"" + tail && text[1..][0] == '"' && text[1..][1..] == tail;
        var mid := r.(state := QuoteInQuotedField);
        assert ReadFrom(r, text) == ReadFrom(mid, text[1..]);
        assert Feed(mid, '"') == Continue(next);
        assert ReadFrom(mid, text[1..]) == ReadFrom(next, tail);
      } else {
        assert text == [field[0]] + tail;
        assert text[1..] == tail;
      }
    }
  }

  /** Reading the rest of a field that needs no quotes. */
  lemma {:induction false} ReadPlain(r: Reader, field: string, rest: string)
    requires r.state == InField
    requires !MustQuote(field)
    ensures ReadFrom(r, field + rest) == ReadFrom(r.(field := r.field + field), rest)
    decreases |field|
  {
    if field == "" {
      assert field + rest == rest && r.field + field == r.field;
    } else {
      var text := field + rest;
      assert text[1..] == field[1..] + rest && text[0] == field[0];
      assert field[0] !in {',', '"', '\n', '\r'};
      assert !MustQuote(field[1..]);
      var next := r.(field := r.field + [field[0]]);
      ReadPlain(next, field[1..], rest);
      assert next.field + field[1..] == r.field + field;
    }
  }

  /** What reading a field leaves to be read. */
  function AfterField(fields: seq<string>, rest: string): Parsed
    requires EndsField(rest)
  {
    if rest == "" then Rows([fields])
    else if rest[0] == ',' then ReadFrom(Reader(StartField, "", fields), rest[1..])
    else if rest[0] == '\r' then ReadFrom(Reader(EatCrnl, "", fields), rest[1..])
    else Prepend(fields, ReadFrom(Fresh, rest[1..]))
  }

  lemma FieldEnds(r: Reader, rest: string)
    requires r.state in {QuoteInQuotedField, InField} && EndsField(rest)
    ensures ReadFrom(r, rest) == AfterField(r.fields + [r.field], rest)
  {
  }

  lemma OpenQuote(r: Reader, tail: string)
    requires AtFieldStart(r)
    ensures ReadFrom(r, "\"" + tail) == ReadFrom(r.(state := InQuotedField), tail)
  {
    assert ("\"" + tail)[0] == '"' && ("\"" + tail)[1..] == tail;
  }

  lemma OpeningFirst(text: string, rest: string)
    ensures "\"" + text + "\"" + rest == "\"" + (text + "\"" + rest)
  {
  }

  lemma ReadQuotedField(r: Reader, field: string, rest: string)
    requires AtFieldStart(r) && EndsField(rest)
    ensures ReadFrom(r, "\"" + DoubleQuotes(field) + "\"" + rest) == AfterField(r.fields + [field], rest)
  {
    var inside := r.(state := InQuotedField);
    var closed := inside.(state := QuoteInQuotedField, field := inside.field + field);
    OpeningFirst(DoubleQuotes(field), rest);
    OpenQuote(r, DoubleQuotes(field) + "\"" + rest);
    ReadQuoted(inside, field, rest);
    FieldEnds(closed, rest);
    assert inside.field + field == field;
  }

  lemma ReadPlainField(r: Reader, field: string, rest: string)
    requires AtFieldStart(r) && EndsField(rest)
    requires field != "" && !MustQuote(field)
    ensures ReadFrom(r, field + rest) == AfterField(r.fields + [field], rest)
  {
    var text := field + rest;
    assert field[0] !in {',', '"', '\n', '\r'};
    assert !MustQuote(field[1..]);
    assert text[1..] == field[1..] + rest && text[0] == field[0];
    var next := r.(state := InField, field := [field[0]]);
    assert r.field + [field[0]] == [field[0]];
    assert ReadFrom(r, text) == ReadFrom(next, text[1..]);
    ReadPlain(next, field[1..], rest);
    var read := next.(field := next.field + field[1..]);
    FieldEnds(read, rest);
    assert [field[0]] + field[1..] == field && read.fields + [read.field] == r.fields + [field];
  }

  /** A written field followed by "," or a line feed is read back, and the reader moves on. */
  lemma ReadField(r: Reader, field: string, rest: string)
    requires AtFieldStart(r) && EndsField(rest)
    requires r.state == StartRecord && (rest == "" || rest[0] != ',') ==> field != ""
    ensures ReadFrom(r, WriteField(field) + rest) == AfterField(r.fields + [field], rest)
  {
    if MustQuote(field) {
      ReadQuotedField(r, field, rest);
    } else if field == "" {
      assert WriteField(field) + rest == rest;
    } else {
      ReadPlainField(r, field, rest);
    }
  }

  /** A record ends with its line or with the text. */
  predicate EndsRow(rest: string) {
    rest == "" || rest[0] in {'\n', '\r'}
  }

  lemma {:induction false} ReadRowFrom(r: Reader, fields: seq<string>, rest: string)
    requires |fields| > 0 && AtFieldStart(r) && EndsRow(rest)
    requires r.state == StartRecord ==> fields != [""]
    ensures ReadFrom(r, WriteFields(fields) + rest) == AfterField(r.fields + fields, rest)
    decreases |fields|
  {
    if |fields| == 1 {
      ReadField(r, fields[0], rest);
      assert fields == [fields[0]];
    } else {
      var tail := WriteFields(fields[1..]) + rest;
      assert WriteFields(fields) + rest == WriteField(fields[0]) + ("," + tail);
      ReadField(r, fields[0], "," + tail);
      assert ("," + tail)[1..] == tail;
      var next := Reader(StartField, "", r.fields + [fields[0]]);
      ReadRowFrom(next, fields[1..], rest);
      assert next.fields + fields[1..] == r.fields + fields;
    }
  }

  lemma ReadRowText(fields: seq<string>, rest: string)
    requires EndsRow(rest) && (rest == "" ==> fields != [])
    ensures ReadFrom(Fresh, RowText(fields) + rest) == AfterField(fields, rest)
  {
    var text := RowText(fields) + rest;
    if fields == [] {
      assert text == rest;
    } else if fields == [""] {
      assert text[1..] == "\"" + rest && text[1..][1..] == rest;
      var quoted := Fresh.(state := InQuotedField);
      var closed := Fresh.(state := QuoteInQuotedField);
      assert ReadFrom(Fresh, text) == ReadFrom(quoted, text[1..]);
      assert ReadFrom(quoted, text[1..]) == ReadFrom(closed, rest);
      assert [] + [""] == [""];
    } else {
      ReadRowFrom(Fresh, fields, rest);
      assert Fresh.fields + fields == fields;
    }
  }

  lemma ReadRow(fields: seq<string>, rest: string)
    ensures ReadFrom(Fresh, WriteRow(fields) + rest) == Prepend(fields, ReadFrom(Fresh, rest))
  {
    assert WriteRow(fields) + rest == RowText(fields) + ("\n" + rest);
    ReadRowText(fields, "\n" + rest);
    assert ("\n" + rest)[1..] == rest;
  }

  /** Whatever rows are written, with commas, quotes and line breaks anywhere, are read back. */
  lemma {:induction false} RoundTrip(rows: seq<seq<string>>)
    ensures Read(WriteRows(rows)) == Rows(rows)
  {
    if |rows| == 0 {
    } else {
      ReadRow(rows[0], WriteRows(rows[1..]));
      RoundTrip(rows[1..]);
      assert [rows[0]] + rows[1..] == rows;
    }
  }

  // ---------------------------------------------------------------- other line ends

  /** The same records with the line ends of RFC 4180. */
  function CrlfRows(rows: seq<seq<string>>): string {
    if |rows| == 0 then "" else RowText(rows[0]) + "\r\n" + CrlfRows(rows[1..])
  }

  lemma ReadCrlfRow(fields: seq<string>, rest: string)
    ensures ReadFrom(Fresh, RowText(fields) + "\r\n" + rest) == Prepend(fields, ReadFrom(Fresh, rest))
  {
    var end := "\r\n" + rest;
    assert RowText(fields) + "\r\n" + rest == RowText(fields) + end;
    ReadRowText(fields, end);
    assert end[1..] == "\n" + rest && end[1..][1..] == rest;
    var eaten := Reader(EatCrnl, "", fields);
    assert ReadFrom(eaten, end[1..]) == Prepend(fields, ReadFrom(Fresh, rest));
  }

  /** Carriage returns before the line feeds make no difference. */
  lemma {:induction false} ReadsCrlf(rows: seq<seq<string>>)
    ensures Read(CrlfRows(rows)) == Rows(rows)
  {
    if |rows| > 0 {
      ReadCrlfRow(rows[0], CrlfRows(rows[1..]));
      ReadsCrlf(rows[1..]);
      assert [rows[0]] + rows[1..] == rows;
    }
  }

  /** Nor does a missing line feed at the end. */
  lemma {:induction false} ReadsWithoutLastFeed(rows: seq<seq<string>>, last: seq<string>)
    requires last != []
    ensures Read(WriteRows(rows) + RowText(last)) == Rows(rows + [last])
  {
    if |rows| == 0 {
      ReadRowText(last, "");
      assert WriteRows(rows) + RowText(last) == RowText(last) + "";
      assert rows + [last] == [last];
    } else {
      var rest := WriteRows(rows[1..]) + RowText(last);
      assert WriteRows(rows) + RowText(last) == WriteRow(rows[0]) + rest;
      ReadRow(rows[0], rest);
      ReadsWithoutLastFeed(rows[1..], last);
      assert [rows[0]] + (rows[1..] + [last]) == rows + [last];
    }
  }

  // ---------------------------------------------------------------- what the text looks like

  lemma {:induction false} PlainFieldsAreJoined(fields: seq<string>)
    requires |fields| > 0 && forall i | 0 <= i < |fields| :: !MustQuote(fields[i])
    ensures WriteFields(fields) == Join(fields, ',')
  {
    if |fields| > 1 {
      PlainFieldsAreJoined(fields[1..]);
    }
  }

  /** Fields without special characters are written as they are, with commas between and a line feed at the end. */
  lemma PlainRowIsJoined(fields: seq<string>)
    requires |fields| > 0 && fields != [""] && forall i | 0 <= i < |fields| :: !MustQuote(fields[i])
    ensures WriteRow(fields) == Join(fields, ',') + "\n"
  {
    PlainFieldsAreJoined(fields);
  }

  /** A field is changed exactly when it has to be quoted; quotes inside are doubled. */
  lemma QuotedFieldLooks(before: string, after: string)
    requires '"' !in before && '"' !in after
    ensures WriteField(before + "\"" + after) == "\"" + before + "\"\"" + after + "\""
  {
    var field := before + "\"" + after;
    assert field[|before|] == '"';
    DoubleQuotesAround(before, after);
  }

  lemma {:induction false} DoubleQuotesAround(before: string, after: string)
    requires '"' !in before && '"' !in after
    ensures DoubleQuotes(before + "\"" + after) == before + "\"\"" + after
  {
    var field := before + "\"" + after;
    if before == "" {
      assert field[1..] == after;
      NoQuotesToDouble(after);
    } else {
      assert field[1..] == before[1..] + "\"" + after;
      DoubleQuotesAround(before[1..], after);
    }
  }

  lemma {:induction false} NoQuotesToDouble(field: string)
    requires '"' !in field
    ensures DoubleQuotes(field) == field
  {
    if field != "" {
      NoQuotesToDouble(field[1..]);
    }
  }
}
