/** The CSV codec of the command line: `formatCSV` of cli/src/commands/export.ts and the import
    of cli/src/commands/import.ts, whose line parser toggles a quote state. */
module Csv {
  import opened Collections
  import opened Optional
  import opened Text

  // ----- writing

  /** A cell as it stands, or between quotes with its own quotes doubled. */
  datatype Cell = Raw(text: string) | Quoted(text: string)

  /** `text.replace(/"/g, '""')` */
  function DoubleQuotes(text: string): string {
    if text == "" then ""
    else (if text[0] == '"' then ['"', '"'] else [text[0]]) + DoubleQuotes(text[1..])
  }

  function Render(cell: Cell): string {
    match cell
    case Raw(text) => text
    case Quoted(text) => ['"'] + (DoubleQuotes(text) + ['"'])
  }

  /** How section 2 of RFC 4180 reads an escaped field after its opening quote: a doubled quote is
      a quote, and a single one closes the field. */
  function ReadEscaped(s: string): Option<(string, string)> {
    if s == "" then None
    else if s[0] != '"' then
      var rest := ReadEscaped(s[1..]);
      if rest.None? then None else Some(([s[0]] + rest.value.0, rest.value.1))
    else if |s| > 1 && s[1] == '"' then
      var rest := ReadEscaped(s[2..]);
      if rest.None? then None else Some((['"'] + rest.value.0, rest.value.1))
    else Some(("", s[1..]))
  }

  /** A quoted cell is an escaped field that stands for its text, whatever the text holds. */
  lemma {:induction false} QuotedIsEscaped(text: string, rest: string)
    requires rest == "" || rest[0] != '"'
    ensures ReadEscaped(DoubleQuotes(text) + (['"'] + rest)) == Some((text, rest))
    ensures Render(Quoted(text)) == ['"'] + (DoubleQuotes(text) + ['"'])
  {
    var close := ['"'] + rest;
    if text == "" {
      assert DoubleQuotes(text) + close == close && close[1..] == rest;
    } else {
      var more := DoubleQuotes(text[1..]) + close;
      QuotedIsEscaped(text[1..], rest);
      assert text == [text[0]] + text[1..];
      if text[0] == '"' {
        assert DoubleQuotes(text) + close == ['"', '"'] + more && (['"', '"'] + more)[2..] == more;
      } else {
        assert DoubleQuotes(text) + close == [text[0]] + more && ([text[0]] + more)[1..] == more;
      }
    }
  }

  function RenderAll(cells: seq<Cell>): seq<string> {
    seq(|cells|, i requires 0 <= i < |cells| => Render(cells[i]))
  }

  function FormatRow(cells: seq<Cell>): string {
    Join(RenderAll(cells), ',')
  }

  /** What follows the first cell of a row. */
  function RowRest(cells: seq<Cell>): string
    requires |cells| > 0
  {
    if |cells| == 1 then "" else [','] + FormatRow(cells[1..])
  }

  lemma FormatRowUnfold(cells: seq<Cell>)
    requires |cells| > 0
    ensures FormatRow(cells) == Render(cells[0]) + RowRest(cells)
  {
    assert RenderAll(cells)[1..] == RenderAll(cells[1..]);
    if |cells| == 1 {
      assert Render(cells[0]) + "" == Render(cells[0]);
    }
  }

  // ----- parsing a line

  /** The cells of the rest of a line, in the given quote state. */
  function Scan(line: string, inQuotes: bool, current: string): (values: seq<string>)
    ensures |values| > 0
    decreases |line|
  {
    if line == "" then [Trim(current)]
    else if line[0] == '"' then Scan(line[1..], !inQuotes, current)
    else if line[0] == ',' && !inQuotes then [Trim(current)] + Scan(line[1..], false, "")
    else Scan(line[1..], inQuotes, current + [line[0]])
  }

  method ParseCSVLine(line: string) returns (values: seq<string>)
    ensures values == Scan(line, false, "")
  {
    values := [];
    var current, inQuotes := "", false;
    for i := 0 to |line|
      invariant values + Scan(line[i..], inQuotes, current) == Scan(line, false, "")
    {
      var c := line[i];
      assert line[i..][1..] == line[i + 1..];
      if c == '"' {
        inQuotes := !inQuotes;
      } else if c == ',' && !inQuotes {
        assert values + ([Trim(current)] + Scan(line[i + 1..], false, "")) ==
               (values + [Trim(current)]) + Scan(line[i + 1..], false, "");
        values := values + [Trim(current)];
        current := "";
      } else {
        current := current + [c];
      }
    }
    values := values + [Trim(current)];
  }

  // ----- what a written row reads back as

  function RemoveQuotes(text: string): (r: string)
    ensures |r| <= |text| && Lacks(r, '"')
    ensures |r| == |text| <==> Lacks(text, '"')
    ensures Lacks(text, '"') ==> r == text
  {
    if text == "" then ""
    else if text[0] == '"' then RemoveQuotes(text[1..])
    else [text[0]] + RemoveQuotes(text[1..])
  }

  function ReadBack(cell: Cell): string {
    match cell
    case Raw(text) => Trim(text)
    case Quoted(text) => Trim(RemoveQuotes(text))
  }

  function ReadBackAll(cells: seq<Cell>): seq<string> {
    seq(|cells|, i requires 0 <= i < |cells| => ReadBack(cells[i]))
  }

  lemma ReadBackUnfold(cells: seq<Cell>)
    requires |cells| > 0
    ensures ReadBackAll(cells) == [ReadBack(cells[0])] + ReadBackAll(cells[1..])
    ensures ReadBackAll(cells)[1..] == ReadBackAll(cells[1..])
  {
    var all, rest := ReadBackAll(cells), ReadBackAll(cells[1..]);
    forall i | 0 <= i < |rest| ensures all[i + 1] == rest[i] {
      assert cells[1..][i] == cells[i + 1];
    }
    assert all[1..] == rest;
    assert all == [all[0]] + all[1..];
  }

  /** No character of the text steers the parser. */
  predicate Plain(text: string) {
    Lacks(text, ',') && Lacks(text, '"')
  }

  predicate RawsPlain(cells: seq<Cell>) {
    forall i | 0 <= i < |cells| && cells[i].Raw? :: Plain(cells[i].text)
  }

  lemma {:induction false} ScanPlain(text: string, rest: string, current: string)
    requires Plain(text)
    ensures Scan(text + rest, false, current) == Scan(rest, false, current + text)
  {
    if text == "" {
      assert text + rest == rest && current + text == current;
    } else {
      assert (text + rest)[1..] == text[1..] + rest;
      ScanPlain(text[1..], rest, current + [text[0]]);
      assert current + [text[0]] + text[1..] == current + text;
    }
  }

  /** A doubled quote toggles twice: inside quotes only the quotes themselves are lost. */
  lemma {:induction false} ScanDoubled(text: string, rest: string, current: string)
    ensures Scan(DoubleQuotes(text) + rest, true, current) == Scan(rest, true, current + RemoveQuotes(text))
  {
    if text == "" {
      assert DoubleQuotes(text) + rest == rest && current + RemoveQuotes(text) == current;
    } else {
      var more := DoubleQuotes(text[1..]) + rest;
      if text[0] == '"' {
        assert DoubleQuotes(text) + rest == ['"', '"'] + more;
        assert (['"', '"'] + more)[1..] == ['"'] + more;
        assert (['"'] + more)[1..] == more;
        ScanDoubled(text[1..], rest, current);
      } else {
        assert DoubleQuotes(text) + rest == [text[0]] + more;
        ScanDoubled(text[1..], rest, current + [text[0]]);
        assert current + [text[0]] + RemoveQuotes(text[1..]) == current + RemoveQuotes(text);
      }
    }
  }

  lemma ScanCell(cell: Cell, rest: string)
    requires cell.Raw? ==> Plain(cell.text)
    ensures Scan(Render(cell) + rest, false, "") ==
            Scan(rest, false, if cell.Raw? then cell.text else RemoveQuotes(cell.text))
  {
    match cell
    case Raw(text) =>
      ScanPlain(text, rest, "");
      assert "" + text == text;
    case Quoted(text) =>
      var line := Render(cell) + rest;
      assert line[1..] == DoubleQuotes(text) + (['"'] + rest);
      ScanDoubled(text, ['"'] + rest, "");
      assert (['"'] + rest)[1..] == rest;
      assert "" + RemoveQuotes(text) == RemoveQuotes(text);
  }

  lemma RowStep(cells: seq<Cell>)
    requires |cells| > 0 && (cells[0].Raw? ==> Plain(cells[0].text))
    ensures Scan(FormatRow(cells), false, "") ==
            [ReadBack(cells[0])] + if |cells| == 1 then [] else Scan(FormatRow(cells[1..]), false, "")
  {
    var rest := RowRest(cells);
    FormatRowUnfold(cells);
    ScanCell(cells[0], rest);
    if |cells| > 1 {
      assert rest[1..] == FormatRow(cells[1..]);
    }
  }

  /** Quoted cells may hold anything: they come back without their quotes and trimmed; plain raw
      cells come back trimmed; and there are as many cells as were written. */
  lemma {:induction false} RowReadsBack(cells: seq<Cell>)
    requires |cells| > 0 && RawsPlain(cells)
    ensures Scan(FormatRow(cells), false, "") == ReadBackAll(cells)
  {
    RowStep(cells);
    if |cells| > 1 {
      RowReadsBack(cells[1..]);
      ReadBackUnfold(cells);
    }
  }

  // ----- exactly which rows read back, and which come back as they were

  lemma {:induction false} ValuesAreClean(line: string, inQuotes: bool, current: string)
    requires Lacks(current, '"')
    ensures forall i | 0 <= i < |Scan(line, inQuotes, current)| ::
              Lacks(Scan(line, inQuotes, current)[i], '"') && Trimmed(Scan(line, inQuotes, current)[i])
    decreases |line|
  {
    TrimIsPart(current);
    if line != "" {
      if line[0] == '"' {
        ValuesAreClean(line[1..], !inQuotes, current);
      } else if line[0] == ',' && !inQuotes {
        ValuesAreClean(line[1..], false, "");
      } else {
        ValuesAreClean(line[1..], inQuotes, current + [line[0]]);
      }
    }
  }

  lemma {:induction false} FirstValueLacksCommas(text: string, rest: string, current: string)
    requires Lacks(text, '"') && ',' in text && Lacks(current, ',')
    ensures Lacks(Scan(text + rest, false, current)[0], ',')
  {
    assert (text + rest)[1..] == text[1..] + rest;
    if text[0] == ',' {
      TrimIsPart(current);
    } else {
      assert text == [text[0]] + text[1..];
      FirstValueLacksCommas(text[1..], rest, current + [text[0]]);
    }
  }

  /** A value has no quote, and the first one no comma, so a raw cell with either does not read
      back. */
  lemma FirstCellMeansPlain(cells: seq<Cell>)
    requires |cells| > 0 && Scan(FormatRow(cells), false, "")[0] == ReadBack(cells[0])
    ensures cells[0].Raw? ==> Plain(cells[0].text)
  {
    var text := cells[0].text;
    if cells[0].Raw? {
      ValuesAreClean(FormatRow(cells), false, "");
      if '"' in text {
        TrimKeepsSolid(text, '"');
      } else if ',' in text {
        TrimKeepsSolid(text, ',');
        FormatRowUnfold(cells);
        FirstValueLacksCommas(text, RowRest(cells), "");
      }
    }
  }

  lemma PrefixTail(x: string, a: seq<string>, b: seq<string>)
    requires [x] + a <= [x] + b
    ensures a <= b
  {
    assert a == ([x] + a)[1..] && b == ([x] + b)[1..];
  }

  lemma {:induction false} PrefixMeansPlain(cells: seq<Cell>)
    requires |cells| > 0 && ReadBackAll(cells) <= Scan(FormatRow(cells), false, "")
    ensures RawsPlain(cells)
  {
    assert ReadBackAll(cells)[0] == ReadBack(cells[0]);
    FirstCellMeansPlain(cells);
    if |cells| > 1 {
      RowStep(cells);
      ReadBackUnfold(cells);
      PrefixTail(ReadBack(cells[0]), ReadBackAll(cells[1..]), Scan(FormatRow(cells[1..]), false, ""));
      PrefixMeansPlain(cells[1..]);
    }
  }

  /** A row reads back cell by cell if and only if its raw cells are plain. */
  lemma RowReadsBackIff(cells: seq<Cell>)
    requires |cells| > 0
    ensures Scan(FormatRow(cells), false, "") == ReadBackAll(cells) <==> RawsPlain(cells)
  {
    if RawsPlain(cells) {
      RowReadsBack(cells);
    } else if Scan(FormatRow(cells), false, "") == ReadBackAll(cells) {
      PrefixMeansPlain(cells);
    }
  }

  function Texts(cells: seq<Cell>): seq<string> {
    seq(|cells|, i requires 0 <= i < |cells| => cells[i].text)
  }

  predicate Survives(cell: Cell) {
    Trimmed(cell.text) && Lacks(cell.text, '"') && (cell.Raw? ==> Lacks(cell.text, ','))
  }

  /** A row comes back as it was if and only if every text is trimmed and free of quotes, and
      every raw text is free of commas. */
  lemma RowRoundTripsIff(cells: seq<Cell>)
    requires |cells| > 0
    ensures Scan(FormatRow(cells), false, "") == Texts(cells) <==> forall i | 0 <= i < |cells| :: Survives(cells[i])
  {
    var values := Scan(FormatRow(cells), false, "");
    if (forall i | 0 <= i < |cells| :: Survives(cells[i])) || values == Texts(cells) {
      ValuesAreClean(FormatRow(cells), false, "");
      forall i | 0 <= i < |cells| ensures ReadBack(cells[i]) == cells[i].text {
        assert values == Texts(cells) ==> values[i] == cells[i].text;
        TrimKeeps(cells[i].text);
      }
      assert ReadBackAll(cells) == Texts(cells);
      RowReadsBackIff(cells);
    }
  }

  // ----- whole files

  /** `metadata` is the JSON text of the record's metadata; it holds no newline. */
  datatype Record = Record(
    path: string, kind: string, title: string, status: string,
    created: string, updated: string, author: string, content: string, metadata: string)

  datatype ExportOptions = ExportOptions(includeContent: bool, includeMetadata: bool)

  const COLUMNS := ["Path", "Type", "Title", "Status", "Created", "Updated", "Author"]

  function Headers(options: ExportOptions): seq<string> {
    COLUMNS
    + (if options.includeContent then ["Content"] else [])
    + (if options.includeMetadata then ["Metadata"] else [])
  }

  function Columns(r: Record): seq<Cell> {
    [Raw(r.path), Raw(r.kind), Raw(r.title), Raw(r.status), Raw(r.created), Raw(r.updated), Raw(r.author)]
  }

  /** An empty content is written raw. */
  function Cells(r: Record, options: ExportOptions): seq<Cell> {
    Columns(r)
    + (if options.includeContent then [if r.content != "" then Quoted(r.content) else Raw("")] else [])
    + (if options.includeMetadata then [Quoted(r.metadata)] else [])
  }

  function Rows(records: seq<Record>, options: ExportOptions): seq<string> {
    seq(|records|, i requires 0 <= i < |records| => FormatRow(Cells(records[i], options)))
  }

  function Exported(records: seq<Record>, options: ExportOptions): string {
    Join([Join(Headers(options), ',')] + Rows(records, options), '\n')
  }

  lemma RawFirst(text: string, rest: seq<Cell>)
    requires |rest| > 0
    ensures FormatRow([Raw(text)] + rest) == text + ([','] + FormatRow(rest))
  {
    FormatRowUnfold([Raw(text)] + rest);
    assert ([Raw(text)] + rest)[1..] == rest;
  }

  lemma OneCell(cell: Cell)
    ensures FormatRow([cell]) == Render(cell)
  {
    FormatRowUnfold([cell]);
  }

  /** What stands after the author. */
  function OptionalColumns(r: Record, options: ExportOptions): string {
    (if options.includeContent then if r.content != "" then ",\"" + DoubleQuotes(r.content) + "\"" else "," else "")
    + (if options.includeMetadata then ",\"" + DoubleQuotes(r.metadata) + "\"" else "")
  }

  lemma AuthorAndLater(r: Record, options: ExportOptions)
    ensures FormatRow([Raw(r.author)] + Cells(r, options)[7..]) == r.author + OptionalColumns(r, options)
  {
    var content := if r.content != "" then Quoted(r.content) else Raw("");
    var metadata := Quoted(r.metadata);
    var rest := Cells(r, options)[7..];
    if options.includeContent {
      OneCell(content);
      if options.includeMetadata {
        assert rest == [content] + [metadata];
        OneCell(metadata);
        FormatRowLast([content], metadata);
      } else {
        assert rest == [content];
      }
    } else if options.includeMetadata {
      assert rest == [metadata];
      OneCell(metadata);
    } else {
      assert rest == [];
      assert [Raw(r.author)] + rest == [Raw(r.author)];
      OneCell(Raw(r.author));
    }
    if rest != [] {
      RawFirst(r.author, rest);
    }
  }

  /** A record's row, column by column. */
  lemma RowText(r: Record, options: ExportOptions)
    ensures FormatRow(Cells(r, options)) ==
            r.path + ("," + (r.kind + ("," + (r.title + ("," + (r.status + ("," + (r.created + ("," + (r.updated + ("," +
            (r.author + OptionalColumns(r, options)))))))))))))
  {
    var author := [Raw(r.author)] + Cells(r, options)[7..];
    AuthorAndLater(r, options);
    RawFirst(r.updated, author);
    RawFirst(r.created, [Raw(r.updated)] + author);
    RawFirst(r.status, [Raw(r.created)] + ([Raw(r.updated)] + author));
    RawFirst(r.title, [Raw(r.status)] + ([Raw(r.created)] + ([Raw(r.updated)] + author)));
    RawFirst(r.kind, [Raw(r.title)] + ([Raw(r.status)] + ([Raw(r.created)] + ([Raw(r.updated)] + author))));
    RawFirst(r.path, [Raw(r.kind)] + ([Raw(r.title)] + ([Raw(r.status)] + ([Raw(r.created)] + ([Raw(r.updated)] + author)))));
    assert Cells(r, options) ==
           [Raw(r.path)] + ([Raw(r.kind)] + ([Raw(r.title)] + ([Raw(r.status)] + ([Raw(r.created)] + ([Raw(r.updated)] + author)))));
  }

  lemma RowsNext(records: seq<Record>, options: ExportOptions, n: nat)
    requires n < |records|
    ensures Rows(records[..n + 1], options) == Rows(records[..n], options) + [FormatRow(Cells(records[n], options))]
  {
  }

  method FormatCSV(records: seq<Record>, options: ExportOptions) returns (text: string)
    ensures text == Exported(records, options)
  {
    var headers := COLUMNS;
    if options.includeContent {
      headers := headers + ["Content"];
    }
    if options.includeMetadata {
      headers := headers + ["Metadata"];
    }
    var rows := [Join(headers, ',')];
    assert headers == Headers(options) && Rows(records[..0], options) == [];
    for n := 0 to |records|
      invariant rows == [Join(Headers(options), ',')] + Rows(records[..n], options)
    {
      var r := records[n];
      var row := Columns(r);
      if options.includeContent {
        row := row + [if r.content != "" then Quoted(r.content) else Raw("")];
      }
      if options.includeMetadata {
        row := row + [Quoted(r.metadata)];
      }
      assert row == Cells(r, options);
      RowsNext(records, options, n);
      Associative([Join(Headers(options), ',')], Rows(records[..n], options), [FormatRow(row)]);
      rows := rows + [FormatRow(row)];
    }
    assert records[..|records|] == records;
    text := Join(rows, '\n');
  }

  datatype Imported = TooShort | Table(headers: seq<string>, rows: seq<seq<string>>)

  function ColumnNames(line: string): seq<string> {
    var names := Split(line, ',');
    seq(|names|, i requires 0 <= i < |names| => RemoveQuotes(Trim(names[i])))
  }

  function ScanAll(lines: seq<string>): seq<seq<string>> {
    seq(|lines|, i requires 0 <= i < |lines| => Scan(lines[i], false, ""))
  }

  /** The first line names the columns; every other line is parsed by itself. */
  function Import(content: string): Imported {
    var lines := Split(Trim(content), '\n');
    if |lines| < 2 then TooShort else Table(ColumnNames(lines[0]), ScanAll(lines[1..]))
  }

  lemma ScanAllNext(lines: seq<string>, i: nat)
    requires 1 <= i < |lines|
    ensures ScanAll(lines[1..i + 1]) == ScanAll(lines[1..i]) + [Scan(lines[i], false, "")]
  {
  }

  method ParseCSVImport(content: string) returns (imported: Imported)
    ensures imported == Import(content)
  {
    var lines := Split(Trim(content), '\n');
    if |lines| < 2 {
      return TooShort;
    }
    var rows: seq<seq<string>> := [];
    for i := 1 to |lines|
      invariant rows == ScanAll(lines[1..i])
    {
      var values := ParseCSVLine(lines[i]);
      ScanAllNext(lines, i);
      rows := rows + [values];
    }
    assert lines[1..|lines|] == lines[1..];
    return Table(ColumnNames(lines[0]), rows);
  }

  /** One line as an object: a later column of the same name wins, a missing value leaves the
      field out. */
  function Fields(headers: seq<string>, values: seq<string>): map<string, string> {
    if headers == [] || values == [] then map[]
    else if |headers| > |values| then Fields(headers[..|values|], values)
    else Fields(headers[..|headers| - 1], values)[headers[|headers| - 1] := values[|headers| - 1]]
  }

  predicate HeaderOk(h: string) {
    Trimmed(h) && Plain(h) && Lacks(h, '\n') && h != ""
  }

  predicate Letters(h: string) {
    h != "" && forall i | 0 <= i < |h| :: 'A' <= h[i] <= 'z'
  }

  lemma HeadersOk(options: ExportOptions)
    ensures forall i | 0 <= i < |Headers(options)| :: HeaderOk(Headers(options)[i])
  {
    forall i | 0 <= i < |Headers(options)| ensures HeaderOk(Headers(options)[i]) {
      HeaderLetters(options, i);
    }
  }

  lemma HeaderLetters(options: ExportOptions, i: nat)
    requires i < |Headers(options)|
    ensures Letters(Headers(options)[i])
  {
  }

  /** The first two letters tell the columns apart. */
  lemma HeadersDistinct(options: ExportOptions, i: nat, j: nat)
    requires i < j < |Headers(options)|
    ensures Headers(options)[i] != Headers(options)[j]
  {
    var h, g := Headers(options)[i], Headers(options)[j];
    assert h[0] != g[0] || h[1] != g[1];
  }

  // ----- the text of a file, trimmed

  /** Trimming the file trims the end of its last cell, unless that cell is quoted. */
  function EndTrimmed(cells: seq<Cell>): seq<Cell>
    requires |cells| > 0
  {
    var last := cells[|cells| - 1];
    cells[..|cells| - 1] + [if last.Raw? then Raw(TrimEnd(last.text)) else last]
  }

  lemma FormatRowLast(front: seq<Cell>, last: Cell)
    requires |front| > 0
    ensures FormatRow(front + [last]) == FormatRow(front) + [','] + Render(last)
  {
    assert RenderAll(front + [last]) == RenderAll(front) + [Render(last)];
    JoinLast(RenderAll(front), Render(last), ',');
  }

  lemma TrimmedCell(before: string, last: Cell)
    requires EndsSolid(before)
    ensures TrimEnd(before + Render(last)) == before + Render(if last.Raw? then Raw(TrimEnd(last.text)) else last)
  {
    if last.Raw? {
      TrimEndAfter(before, last.text);
    } else {
      assert (before + Render(last))[|before + Render(last)| - 1] == '"';
    }
  }

  lemma TrimmedRow(before: string, cells: seq<Cell>)
    requires |cells| > 1
    ensures TrimEnd(before + FormatRow(cells)) == before + FormatRow(EndTrimmed(cells))
  {
    var front, last := cells[..|cells| - 1], cells[|cells| - 1];
    var last' := EndTrimmed(cells)[|cells| - 1];
    assert cells == front + [last] && EndTrimmed(cells) == front + [last'];
    FormatRowLast(front, last);
    FormatRowLast(front, last');
    var head := FormatRow(front) + [','];
    Associative(before, head, Render(last));
    Associative(before, head, Render(last'));
    TrimmedCell(before + head, last);
  }

  lemma TrimmedRowReadsBack(cells: seq<Cell>)
    requires |cells| > 0
    ensures ReadBackAll(EndTrimmed(cells)) == ReadBackAll(cells)
  {
    TrimOfTrimEnd(cells[|cells| - 1].text);
  }

  /** The cells of a file, its last cell as the import sees it. */
  function SheetRow(records: seq<Record>, options: ExportOptions, i: nat): seq<Cell>
    requires i < |records|
  {
    var cells := Cells(records[i], options);
    if i == |records| - 1 then EndTrimmed(cells) else cells
  }

  function SheetRows(records: seq<Record>, options: ExportOptions): seq<string> {
    seq(|records|, i requires 0 <= i < |records| => FormatRow(SheetRow(records, options, i)))
  }

  lemma ExportEnd(records: seq<Record>, options: ExportOptions)
    requires |records| > 0
    ensures TrimEnd(Exported(records, options)) == Join([Join(Headers(options), ',')] + SheetRows(records, options), '\n')
  {
    var n := |records| - 1;
    var front, cells := [Join(Headers(options), ',')] + Rows(records, options)[..n], Cells(records[n], options);
    assert [Join(Headers(options), ',')] + Rows(records, options) == front + [FormatRow(cells)];
    assert [Join(Headers(options), ',')] + SheetRows(records, options) == front + [FormatRow(EndTrimmed(cells))];
    JoinLast(front, FormatRow(cells), '\n');
    JoinLast(front, FormatRow(EndTrimmed(cells)), '\n');
    TrimmedRow(Join(front, '\n') + ['\n'], cells);
  }

  lemma ExportStart(records: seq<Record>, options: ExportOptions)
    ensures TrimStart(Exported(records, options)) == Exported(records, options)
  {
    var headers, lines := Headers(options), [Join(Headers(options), ',')] + Rows(records, options);
    HeaderLetters(options, 0);
    assert Join(headers, ',')[0] == headers[0][0];
    assert Join(lines, '\n')[0] == lines[0][0];
  }

  lemma TrimmedExport(records: seq<Record>, options: ExportOptions)
    requires |records| > 0
    ensures Trim(Exported(records, options)) == Join([Join(Headers(options), ',')] + SheetRows(records, options), '\n')
  {
    ExportStart(records, options);
    ExportEnd(records, options);
  }

  lemma ColumnNamesReadBack(options: ExportOptions)
    ensures ColumnNames(Join(Headers(options), ',')) == Headers(options)
    ensures Lacks(Join(Headers(options), ','), '\n')
  {
    var headers := Headers(options);
    HeadersOk(options);
    SplitOfJoin(headers, ',');
    JoinLacksIff(headers, '\n', ',');
    forall i | 0 <= i < |headers| ensures RemoveQuotes(Trim(headers[i])) == headers[i] {
      TrimKeeps(headers[i]);
    }
  }

  /** The column names of a header are its parts, trimmed and then without quotes. */
  lemma ColumnNamesOf(parts: seq<string>, i: nat)
    requires i < |parts| && forall p | p in parts :: Lacks(p, ',')
    ensures var names := ColumnNames(Join(parts, ','));
            |names| == |parts| && names[i] == RemoveQuotes(Trim(parts[i])) && Lacks(names[i], '"')
  {
    SplitOfJoin(parts, ',');
  }

  /** What the import makes of an export: it scans the lines of the rows. */
  lemma ImportScansLines(records: seq<Record>, options: ExportOptions)
    requires |records| > 0
    ensures Import(Exported(records, options)) ==
            Table(Headers(options), ScanAll(Split(Join(SheetRows(records, options), '\n'), '\n')))
  {
    var header, rows := Join(Headers(options), ','), SheetRows(records, options);
    TrimmedExport(records, options);
    ColumnNamesReadBack(options);
    assert ([header] + rows)[1..] == rows;
    SplitHead(header, Join(rows, '\n'), '\n');
    var lines := Split(Join(rows, '\n'), '\n');
    assert ([header] + lines)[1..] == lines;
  }

  lemma NothingToImport(options: ExportOptions)
    ensures Import(Exported([], options)) == TooShort
  {
    ColumnNamesReadBack(options);
    var header := Join(Headers(options), ',');
    assert [header] + Rows([], options) == [header];
    TrimIsPart(header);
    SplitWhole(Trim(header), '\n');
  }

  // ----- lines and rows

  predicate NoNewlines(cells: seq<Cell>) {
    forall i | 0 <= i < |cells| :: Lacks(cells[i].text, '\n')
  }

  lemma {:induction false} DoubledLacksIff(text: string, c: char)
    requires c != '"'
    ensures Lacks(DoubleQuotes(text), c) <==> Lacks(text, c)
  {
    if text != "" {
      assert text == [text[0]] + text[1..];
      DoubledLacksIff(text[1..], c);
    }
  }

  lemma RowLacksNewlinesIff(cells: seq<Cell>)
    ensures Lacks(FormatRow(cells), '\n') <==> NoNewlines(cells)
  {
    JoinLacksIff(RenderAll(cells), '\n', ',');
    forall i | 0 <= i < |cells| ensures Lacks(RenderAll(cells)[i], '\n') <==> Lacks(cells[i].text, '\n') {
      DoubledLacksIff(cells[i].text, '\n');
    }
  }

  /** There are never fewer lines than records, and as many only if no cell has a newline; then
      the lines are the rows. */
  lemma LinesAreRows(records: seq<Record>, options: ExportOptions)
    requires |records| > 0
    ensures var lines := Split(Join(SheetRows(records, options), '\n'), '\n');
            && |lines| >= |records|
            && (|lines| == |records| <==> forall i | 0 <= i < |records| :: NoNewlines(SheetRow(records, options, i)))
            && (|lines| == |records| ==> lines == SheetRows(records, options))
  {
    var rows := SheetRows(records, options);
    SplitCountsParts(rows, '\n');
    forall i | 0 <= i < |records| ensures Lacks(rows[i], '\n') <==> NoNewlines(SheetRow(records, options, i)) {
      RowLacksNewlinesIff(SheetRow(records, options, i));
    }
    if forall i | 0 <= i < |records| :: Lacks(rows[i], '\n') {
      SplitOfJoin(rows, '\n');
    }
  }

  /** What the import makes of an export of at least one record: never fewer rows than records,
      and as many only if no cell has a newline; then it scans the rows. */
  lemma ImportedRows(records: seq<Record>, options: ExportOptions, read: Imported)
    requires records != [] && read == Import(Exported(records, options))
    ensures read.Table? && read.headers == Headers(options) && |read.rows| >= |records|
    ensures |read.rows| == |records| <==> forall i | 0 <= i < |records| :: NoNewlines(SheetRow(records, options, i))
    ensures |read.rows| == |records| ==> read.rows == ScanAll(SheetRows(records, options))
  {
    ImportScansLines(records, options);
    LinesAreRows(records, options);
  }

  /** A record with more than one line of content comes back as more than one row. */
  lemma MultilineContentAddsRows(records: seq<Record>, options: ExportOptions, i: nat)
    requires i < |records| && options.includeContent && '\n' in records[i].content
    ensures var read := Import(Exported(records, options)); read.Table? && |read.rows| > |records|
  {
    ImportedRows(records, options, Import(Exported(records, options)));
    assert SheetRow(records, options, i)[7] == Quoted(records[i].content);
    assert !NoNewlines(SheetRow(records, options, i));
  }

  // ----- exactly which files read back

  /** What each cell of each record reads back as. */
  function ReadRows(records: seq<Record>, options: ExportOptions): seq<seq<string>> {
    seq(|records|, i requires 0 <= i < |records| => ReadBackAll(Cells(records[i], options)))
  }

  /** What the writer leaves unescaped must not steer the reader: no cell has a newline and no raw
      cell a comma or a quote. Blanks at the end of the file do not count. */
  predicate Exportable(records: seq<Record>, options: ExportOptions) {
    forall i | 0 <= i < |records| :: NoNewlines(SheetRow(records, options, i)) && RawsPlain(SheetRow(records, options, i))
  }

  lemma SheetRowReadsBackIff(records: seq<Record>, options: ExportOptions, i: nat)
    requires i < |records|
    ensures Scan(SheetRows(records, options)[i], false, "") == ReadRows(records, options)[i] <==>
            RawsPlain(SheetRow(records, options, i))
  {
    TrimmedRowReadsBack(Cells(records[i], options));
    RowReadsBackIff(SheetRow(records, options, i));
  }

  /** Importing an export gives back the column names and, row by row, what each cell reads back
      as, if and only if there is a record and the records are exportable. */
  lemma ImportOfExportIff(records: seq<Record>, options: ExportOptions)
    ensures Import(Exported(records, options)) == Table(Headers(options), ReadRows(records, options)) <==>
            records != [] && Exportable(records, options)
  {
    if records == [] {
      NothingToImport(options);
    } else {
      ImportedRows(records, options, Import(Exported(records, options)));
      forall i | 0 <= i < |records|
        ensures Scan(SheetRows(records, options)[i], false, "") == ReadRows(records, options)[i] <==>
                RawsPlain(SheetRow(records, options, i))
      {
        SheetRowReadsBackIff(records, options, i);
      }
      SameRowsIff(SheetRows(records, options), ReadRows(records, options));
    }
  }

  lemma SameRowsIff(lines: seq<string>, rows: seq<seq<string>>)
    requires |lines| == |rows|
    ensures ScanAll(lines) == rows <==> forall i | 0 <= i < |lines| :: Scan(lines[i], false, "") == rows[i]
  {
    if ScanAll(lines) == rows {
      forall i | 0 <= i < |lines| ensures Scan(lines[i], false, "") == rows[i] {
        assert ScanAll(lines)[i] == rows[i];
      }
    }
  }

  function TextRows(records: seq<Record>, options: ExportOptions): seq<seq<string>> {
    seq(|records|, i requires 0 <= i < |records| => Texts(Cells(records[i], options)))
  }

  predicate RowSurvives(cells: seq<Cell>) {
    forall j | 0 <= j < |cells| :: Survives(cells[j]) && Lacks(cells[j].text, '\n')
  }

  /** The end of a row that survives is not trimmed. */
  lemma SheetRowRoundTripsIff(records: seq<Record>, options: ExportOptions, i: nat)
    requires i < |records|
    ensures Scan(SheetRows(records, options)[i], false, "") == Texts(Cells(records[i], options))
            && NoNewlines(SheetRow(records, options, i)) <==>
            RowSurvives(Cells(records[i], options))
  {
    var cells, row := Cells(records[i], options), SheetRow(records, options, i);
    if RowSurvives(cells) || Scan(FormatRow(row), false, "") == Texts(cells) {
      ValuesAreClean(FormatRow(row), false, "");
      assert Texts(cells)[|cells| - 1] == cells[|cells| - 1].text;
      assert row == cells;
      RowRoundTripsIff(cells);
    }
  }

  /** A file comes back as it was if and only if there is a record and every text is trimmed and
      free of quotes and newlines, and every raw text is free of commas. */
  lemma FileRoundTripsIff(records: seq<Record>, options: ExportOptions)
    ensures Import(Exported(records, options)) == Table(Headers(options), TextRows(records, options)) <==>
            records != [] && forall i | 0 <= i < |records| :: RowSurvives(Cells(records[i], options))
  {
    if records == [] {
      NothingToImport(options);
    } else {
      ImportedRows(records, options, Import(Exported(records, options)));
      forall i | 0 <= i < |records|
        ensures Scan(SheetRows(records, options)[i], false, "") == TextRows(records, options)[i]
                && NoNewlines(SheetRow(records, options, i)) <==>
                RowSurvives(Cells(records[i], options))
      {
        SheetRowRoundTripsIff(records, options, i);
      }
      SameRowsIff(SheetRows(records, options), TextRows(records, options));
    }
  }

  // ----- the fields of imported objects

  /** A field is the value of the last column of its name that has one. */
  lemma {:induction false} FieldsAt(headers: seq<string>, values: seq<string>, j: nat)
    requires j < |headers| && j < |values|
    requires forall n | j < n < |headers| && n < |values| :: headers[n] != headers[j]
    ensures headers[j] in Fields(headers, values) && Fields(headers, values)[headers[j]] == values[j]
    decreases |headers|
  {
    if |headers| > |values| {
      FieldsAt(headers[..|values|], values, j);
    } else if j < |headers| - 1 {
      FieldsAt(headers[..|headers| - 1], values, j);
    }
  }

  lemma {:induction false} FieldsHaveValues(headers: seq<string>, values: seq<string>, h: string)
    requires h in Fields(headers, values)
    ensures exists j :: 0 <= j < |headers| && j < |values| && headers[j] == h
    decreases |headers|
  {
    if |headers| > |values| {
      FieldsHaveValues(headers[..|values|], values, h);
      var j :| 0 <= j < |values| && headers[..|values|][j] == h;
      assert headers[j] == h;
    } else if h != headers[|headers| - 1] {
      FieldsHaveValues(headers[..|headers| - 1], values, h);
      var j :| 0 <= j < |headers| - 1 && headers[..|headers| - 1][j] == h;
      assert headers[j] == h;
    }
  }

  /** Each record is imported as one object, whose fields are the cells of their columns. */
  ghost predicate FieldsTold(read: Imported, records: seq<Record>, options: ExportOptions) {
    && read.Table? && |read.rows| == |records|
    && forall i | 0 <= i < |records| :: RowTold(read.headers, read.rows[i], Headers(options), Cells(records[i], options))
  }

  predicate RowTold(names: seq<string>, values: seq<string>, headers: seq<string>, cells: seq<Cell>)
    requires |headers| == |cells|
  {
    forall j | 0 <= j < |headers| ::
      headers[j] in Fields(names, values) && Fields(names, values)[headers[j]] == ReadBack(cells[j])
  }

  lemma RowToldIff(values: seq<string>, options: ExportOptions, cells: seq<Cell>)
    requires |cells| == |Headers(options)|
    ensures RowTold(Headers(options), values, Headers(options), cells) <==> ReadBackAll(cells) <= values
  {
    var headers := Headers(options);
    forall m, n | 0 <= m < n < |headers| ensures headers[m] != headers[n] {
      HeadersDistinct(options, m, n);
    }
    if RowTold(headers, values, headers, cells) {
      FieldsHaveValues(headers, values, headers[|headers| - 1]);
    }
    if |headers| <= |values| {
      forall j | 0 <= j < |headers|
        ensures headers[j] in Fields(headers, values) && Fields(headers, values)[headers[j]] == values[j]
      {
        FieldsAt(headers, values, j);
      }
      PrefixIff(ReadBackAll(cells), values);
    }
  }

  lemma PrefixIff<T>(a: seq<T>, b: seq<T>)
    requires |a| <= |b|
    ensures a <= b <==> forall j | 0 <= j < |a| :: a[j] == b[j]
  {
  }

  lemma SheetRowToldIff(records: seq<Record>, options: ExportOptions, i: nat)
    requires i < |records|
    ensures RowTold(Headers(options), Scan(SheetRows(records, options)[i], false, ""), Headers(options), Cells(records[i], options))
            <==> RawsPlain(SheetRow(records, options, i))
  {
    var row, values := SheetRow(records, options, i), Scan(SheetRows(records, options)[i], false, "");
    RowToldIff(values, options, Cells(records[i], options));
    TrimmedRowReadsBack(Cells(records[i], options));
    if ReadBackAll(row) <= values {
      PrefixMeansPlain(row);
    } else {
      SheetRowReadsBackIff(records, options, i);
    }
  }

  /** The fields of the imported objects are the cells of their columns, record by record, if and
      only if there is a record and the records are exportable. */
  lemma ImportedFieldsIff(records: seq<Record>, options: ExportOptions)
    ensures FieldsTold(Import(Exported(records, options)), records, options) <==>
            records != [] && Exportable(records, options)
  {
    if records == [] {
      NothingToImport(options);
    } else {
      ImportedRows(records, options, Import(Exported(records, options)));
      forall i | 0 <= i < |records|
        ensures RowTold(Headers(options), Scan(SheetRows(records, options)[i], false, ""), Headers(options), Cells(records[i], options))
                <==> RawsPlain(SheetRow(records, options, i))
      {
        SheetRowToldIff(records, options, i);
      }
    }
  }

  predicate FieldIs(fields: map<string, string>, name: string, value: string) {
    name in fields && fields[name] == value
  }

  /** The imported object of a record, field by field. */
  lemma ImportedRecord(records: seq<Record>, options: ExportOptions, read: Imported, i: nat)
    requires Exportable(records, options) && i < |records| && read == Import(Exported(records, options))
    ensures read.Table? && |read.rows| == |records|
    ensures var fields, r := Fields(read.headers, read.rows[i]), records[i];
            && FieldIs(fields, "Path", Trim(r.path)) && FieldIs(fields, "Type", Trim(r.kind)) && FieldIs(fields, "Title", Trim(r.title))
            && FieldIs(fields, "Status", Trim(r.status)) && FieldIs(fields, "Created", Trim(r.created))
            && FieldIs(fields, "Updated", Trim(r.updated)) && FieldIs(fields, "Author", Trim(r.author))
            && (options.includeContent ==> FieldIs(fields, "Content", Trim(RemoveQuotes(r.content))))
            && (options.includeMetadata ==> FieldIs(fields, "Metadata", Trim(RemoveQuotes(r.metadata))))
  {
    ImportedFieldsIff(records, options);
    var fields := Fields(read.headers, read.rows[i]);
    NamedColumns(fields, records[i], options);
    NamedOptionals(fields, records[i], options);
  }

  predicate ColumnsTold(fields: map<string, string>, r: Record, options: ExportOptions) {
    forall j | 0 <= j < |Headers(options)| :: FieldIs(fields, Headers(options)[j], ReadBack(Cells(r, options)[j]))
  }

  lemma NamedColumns(fields: map<string, string>, r: Record, options: ExportOptions)
    requires ColumnsTold(fields, r, options)
    ensures FieldIs(fields, "Path", Trim(r.path)) && FieldIs(fields, "Type", Trim(r.kind)) && FieldIs(fields, "Title", Trim(r.title))
    ensures FieldIs(fields, "Status", Trim(r.status)) && FieldIs(fields, "Created", Trim(r.created))
    ensures FieldIs(fields, "Updated", Trim(r.updated)) && FieldIs(fields, "Author", Trim(r.author))
  {
    forall j | 0 <= j < 7 ensures FieldIs(fields, COLUMNS[j], ReadBack(Columns(r)[j])) {
      assert Headers(options)[j] == COLUMNS[j] && Cells(r, options)[j] == Columns(r)[j];
    }
    assert FieldIs(fields, COLUMNS[0], ReadBack(Columns(r)[0])) && FieldIs(fields, COLUMNS[1], ReadBack(Columns(r)[1]));
    assert FieldIs(fields, COLUMNS[2], ReadBack(Columns(r)[2])) && FieldIs(fields, COLUMNS[3], ReadBack(Columns(r)[3]));
    assert FieldIs(fields, COLUMNS[4], ReadBack(Columns(r)[4])) && FieldIs(fields, COLUMNS[5], ReadBack(Columns(r)[5]));
    assert FieldIs(fields, COLUMNS[6], ReadBack(Columns(r)[6]));
  }

  lemma NamedOptionals(fields: map<string, string>, r: Record, options: ExportOptions)
    requires ColumnsTold(fields, r, options)
    ensures options.includeContent ==> FieldIs(fields, "Content", Trim(RemoveQuotes(r.content)))
    ensures options.includeMetadata ==> FieldIs(fields, "Metadata", Trim(RemoveQuotes(r.metadata)))
  {
    var h, c := Headers(options), Cells(r, options);
    if options.includeContent {
      assert h[7] == "Content" && ReadBack(c[7]) == Trim(RemoveQuotes(r.content));
    }
    if options.includeMetadata {
      assert h[|h| - 1] == "Metadata" && c[|h| - 1] == Quoted(r.metadata);
    }
  }
}
