/** The file formats exchanged with the SDB (`src/modules/brokerage/connectors/csv.ts`):
    header row, semicolons, LF, no quoting; free text is sanitised. */
module Csv {
  import opened Decimals

  const SEP := ';'
  const EOL := '\n'

  // ---------------------------------------------------------------- strings

  /** What `trim` removes. */
  predicate IsSpace(c: char) {
    || '\t' <= c <= '\r' || c == ' ' || c == '\U{a0}' || c == '\U{1680}' || '\U{2000}' <= c <= '\U{200a}'
    || c in {'\U{2028}', '\U{2029}', '\U{202f}', '\U{205f}', '\U{3000}', '\U{feff}'}
  }

  function TrimStart(s: string): (t: string)
    ensures t != [] ==> !IsSpace(t[0])
    ensures forall c :: c in t ==> c in s
  {
    if s == [] then [] else if IsSpace(s[0]) then TrimStart(s[1..]) else s
  }

  function TrimEnd(s: string): (t: string)
    ensures t != [] ==> !IsSpace(t[|t| - 1])
    ensures t <= s
  {
    if s == [] then [] else if IsSpace(s[|s| - 1]) then TrimEnd(s[..|s| - 1]) else s
  }

  function Trim(s: string): (t: string)
    ensures forall c :: c in t ==> c in s
  {
    TrimEnd(TrimStart(s))
  }

  predicate Trimmed(s: string) {
    s == [] || (!IsSpace(s[0]) && !IsSpace(s[|s| - 1]))
  }

  /** Trimming is idempotent: it gives a trimmed text, and leaves those as they are. */
  lemma TrimTrims(s: string)
    ensures Trimmed(Trim(s))
    ensures Trimmed(s) <==> Trim(s) == s
  {
    var t := TrimStart(s);
    var u := TrimEnd(t);
    if u != [] { assert u[0] == t[0]; }
  }

  function Split(s: string, sep: char): (fields: seq<string>)
    ensures |fields| >= 1
  {
    if s == [] then [""]
    else
      var rest := Split(s[1..], sep);
      if s[0] == sep then [""] + rest else [[s[0]] + rest[0]] + rest[1..]
  }

  function Join(fields: seq<string>, sep: char): string {
    if fields == [] then "" else if |fields| == 1 then fields[0] else fields[0] + [sep] + Join(fields[1..], sep)
  }

  lemma {:induction false} SplitOne(f: string, sep: char)
    requires sep !in f
    ensures Split(f, sep) == [f]
  {
    if f != [] {
      SplitOne(f[1..], sep);
      assert [f[0]] + f[1..] == f;
    }
  }

  lemma {:induction false} SplitFirst(f: string, rest: string, sep: char)
    requires sep !in f
    ensures Split(f + [sep] + rest, sep) == [f] + Split(rest, sep)
  {
    var s := f + [sep] + rest;
    if f == [] {
      assert s[1..] == rest;
    } else {
      SplitFirst(f[1..], rest, sep);
      assert s[1..] == f[1..] + [sep] + rest;
      assert [f[0]] + f[1..] == f;
      assert ([f[1..]] + Split(rest, sep))[1..] == Split(rest, sep);
    }
  }

  /** Splitting undoes joining when no field holds the separator. */
  lemma {:induction false} SplitJoin(fields: seq<string>, sep: char)
    requires fields != [] && forall i :: 0 <= i < |fields| ==> sep !in fields[i]
    ensures Split(Join(fields, sep), sep) == fields
  {
    if |fields| == 1 {
      SplitOne(fields[0], sep);
    } else {
      SplitJoin(fields[1..], sep);
      SplitFirst(fields[0], Join(fields[1..], sep), sep);
    }
  }

  /** Joining always undoes splitting, and no piece holds the separator. */
  lemma {:induction false} JoinSplit(s: string, sep: char)
    ensures Join(Split(s, sep), sep) == s
    ensures forall i :: 0 <= i < |Split(s, sep)| ==> sep !in Split(s, sep)[i]
  {
    if s != [] {
      JoinSplit(s[1..], sep);
      var rest := Split(s[1..], sep);
      if s[0] == sep { assert ([""] + rest)[1..] == rest; }
    }
  }

  lemma {:induction false} JoinLacks(fields: seq<string>, sep: char, c: char)
    requires c != sep && forall i :: 0 <= i < |fields| ==> c !in fields[i]
    ensures c !in Join(fields, sep)
  {
    if |fields| > 1 { JoinLacks(fields[1..], sep, c); }
  }

  // ---------------------------------------------------------------- printing

  predicate IsBreak(c: char) {
    c == SEP || c == '\r' || c == '\n'
  }

  /** No separator and no line break. */
  predicate Plain(s: string) {
    forall i :: 0 <= i < |s| ==> !IsBreak(s[i])
  }

  /** `replace(/[;\r\n]+/g, ' ')`: each run of breaks becomes one space. */
  function ReplaceBreaks(s: string): (t: string)
    ensures Plain(t)
  {
    if s == [] then []
    else if IsBreak(s[0]) then
      if |s| > 1 && IsBreak(s[1]) then ReplaceBreaks(s[1..]) else " " + ReplaceBreaks(s[1..])
    else [s[0]] + ReplaceBreaks(s[1..])
  }

  function Sanitize(s: string): (t: string)
    ensures Plain(t)
  {
    var r := ReplaceBreaks(s);
    var t := Trim(r);
    assert forall i :: 0 <= i < |t| ==> t[i] in r;
    t
  }

  lemma {:induction false} PlainReplaced(s: string)
    requires Plain(s)
    ensures ReplaceBreaks(s) == s
  {
    if s != [] { PlainReplaced(s[1..]); }
  }

  /** A field that survives a round trip: plain and trimmed. */
  predicate Clean(s: string) {
    Plain(s) && Trimmed(s)
  }

  /** Sanitising always gives a clean field, and leaves clean fields alone. */
  lemma SanitizeCleans(s: string)
    ensures Clean(Sanitize(s))
    ensures Clean(s) <==> Sanitize(s) == s
  {
    TrimTrims(ReplaceBreaks(s));
    if Plain(s) {
      PlainReplaced(s);
      TrimTrims(s);
    }
  }

  function JoinRows(rows: seq<seq<string>>): seq<string> {
    seq(|rows|, i requires 0 <= i < |rows| => Join(rows[i], SEP))
  }

  function ToCsv(columns: seq<string>, rows: seq<seq<string>>): string {
    Join([Join(columns, SEP)] + JoinRows(rows), EOL) + [EOL]
  }

  // ----------------------------------------------------------------- parsing

  datatype CsvError = EmptyFile | MissingColumns(columns: seq<string>) | ShortLine(line: nat) | BadValue(line: nat, field: string)

  datatype Parsed<+T> = Good(value: T) | Bad(error: CsvError)

  function StripBom(s: string): string {
    if s != [] && s[0] == '\U{feff}' then s[1..] else s
  }

  function CutCr(s: string): string {
    if s != [] && s[|s| - 1] == '\r' then s[..|s| - 1] else s
  }

  /** `split(/\r?\n/)`. */
  function Lines(s: string): seq<string> {
    var pieces := Split(s, '\n');
    seq(|pieces|, i requires 0 <= i < |pieces| => if i < |pieces| - 1 then CutCr(pieces[i]) else pieces[i])
  }

  function NonBlank(lines: seq<string>): seq<string> {
    if lines == [] then []
    else (if Trim(lines[0]) != [] then [lines[0]] else []) + NonBlank(lines[1..])
  }

  function TrimAll(fields: seq<string>): seq<string> {
    seq(|fields|, i requires 0 <= i < |fields| => Trim(fields[i]))
  }

  /** The record of a row: a repeated column keeps its last cell. */
  function Fill(header: seq<string>, cells: seq<string>): map<string, string>
    requires |header| <= |cells|
  {
    if header == [] then map[]
    else
      var n := |header| - 1;
      Fill(header[..n], cells)[header[n] := Trim(cells[n])]
  }

  /** The rows, numbered from `line`; the first one that is too short is reported. */
  function Records(header: seq<string>, lines: seq<string>, line: nat): Parsed<seq<map<string, string>>> {
    if lines == [] then Good([])
    else
      var cells := Split(lines[0], SEP);
      if |cells| < |header| then Bad(ShortLine(line))
      else match Records(header, lines[1..], line + 1)
        case Bad(e) => Bad(e)
        case Good(rest) => Good([Fill(header, cells)] + rest)
  }

  function Missing(required: seq<string>, header: seq<string>): seq<string> {
    if required == [] then []
    else (if required[0] !in header then [required[0]] else []) + Missing(required[1..], header)
  }

  function ParseCsv(text: string, required: seq<string>): Parsed<seq<map<string, string>>> {
    var lines := NonBlank(Lines(StripBom(text)));
    if lines == [] then Bad(EmptyFile)
    else
      var header := TrimAll(Split(lines[0], SEP));
      var missing := Missing(required, header);
      if missing != [] then Bad(MissingColumns(missing)) else Records(header, lines[1..], 2)
  }

  // ------------------------------------------------------- the generic round trip

  predicate CleanRow(row: seq<string>) {
    forall i :: 0 <= i < |row| ==> Clean(row[i])
  }

  /** A header and rows of the same width, at least two columns, every field clean. */
  predicate CleanTable(columns: seq<string>, rows: seq<seq<string>>) {
    && |columns| >= 2 && CleanRow(columns) && columns[0] != [] && !IsSpace(columns[0][0])
    && forall j :: 0 <= j < |rows| ==> |rows[j]| == |columns| && CleanRow(rows[j])
  }

  /** As a Windows tool would rewrite it. */
  function Crlf(s: string): string {
    if s == [] then [] else (if s[0] == '\n' then "\r\n" else [s[0]]) + Crlf(s[1..])
  }

  /** Every piece but the last gains a CR. */
  predicate Carried(a: seq<string>, b: seq<string>) {
    |b| == |a| && forall i :: 0 <= i < |a| ==> b[i] == if i < |a| - 1 then a[i] + "\r" else a[i]
  }

  lemma CarriedBreak(a: seq<string>, b: seq<string>)
    requires Carried(a, b) && a != []
    ensures Carried([""] + a, ["\r"] + b)
  {
  }

  lemma CarriedChar(a: seq<string>, b: seq<string>, c: char)
    requires Carried(a, b) && a != []
    ensures Carried([[c] + a[0]] + a[1..], [[c] + b[0]] + b[1..])
  {
    assert [c] + (a[0] + "\r") == [c] + a[0] + "\r";
  }

  lemma {:induction false} CrlfSplit(s: string)
    ensures Carried(Split(s, '\n'), Split(Crlf(s), '\n'))
  {
    if s != [] {
      CrlfSplit(s[1..]);
      if s[0] == '\n' {
        assert Crlf(s) == "\r" + ['\n'] + Crlf(s[1..]);
        SplitFirst("\r", Crlf(s[1..]), '\n');
        CarriedBreak(Split(s[1..], '\n'), Split(Crlf(s[1..]), '\n'));
      } else {
        assert Crlf(s) == [s[0]] + Crlf(s[1..]) && Crlf(s)[1..] == Crlf(s[1..]);
        CarriedChar(Split(s[1..], '\n'), Split(Crlf(s[1..]), '\n'), s[0]);
      }
    }
  }

  lemma {:induction false} SplitLacks(s: string, sep: char, c: char)
    requires c !in s
    ensures forall i :: 0 <= i < |Split(s, sep)| ==> c !in Split(s, sep)[i]
  {
    if s != [] { SplitLacks(s[1..], sep, c); }
  }

  /** A text without CR has the same lines with LF or CRLF ends. */
  lemma CrlfSameLines(s: string)
    requires '\r' !in s
    ensures Lines(Crlf(s)) == Lines(s)
  {
    CrlfSplit(s);
    SplitLacks(s, '\n', '\r');
    var a, b := Split(s, '\n'), Split(Crlf(s), '\n');
    forall i | 0 <= i < |a| ensures Lines(Crlf(s))[i] == Lines(s)[i] {
      if i < |a| - 1 { assert CutCr(a[i] + "\r") == a[i]; }
    }
  }

  lemma {:induction false} SplitEol(lines: seq<string>)
    requires lines != [] && forall i :: 0 <= i < |lines| ==> EOL !in lines[i]
    ensures Split(Join(lines, EOL) + [EOL], EOL) == lines + [""]
  {
    if |lines| == 1 {
      assert lines[0] + [EOL] == lines[0] + [EOL] + "";
      SplitFirst(lines[0], "", EOL);
    } else {
      SplitEol(lines[1..]);
      SplitFirst(lines[0], Join(lines[1..], EOL) + [EOL], EOL);
      assert Join(lines, EOL) + [EOL] == lines[0] + [EOL] + (Join(lines[1..], EOL) + [EOL]);
      assert [lines[0]] + (lines[1..] + [""]) == lines + [""];
    }
  }

  lemma {:induction false} NonBlankKeeps(lines: seq<string>)
    requires forall i :: 0 <= i < |lines| ==> Trim(lines[i]) != []
    ensures NonBlank(lines + [""]) == lines
  {
    if lines != [] {
      NonBlankKeeps(lines[1..]);
      assert (lines + [""])[1..] == lines[1..] + [""];
    }
  }

  lemma {:induction false} TrimStartKeeps(s: string, c: char)
    requires c in s && !IsSpace(c)
    ensures c in TrimStart(s)
  {
    if IsSpace(s[0]) { TrimStartKeeps(s[1..], c); }
  }

  lemma {:induction false} TrimEndKeeps(s: string, c: char)
    requires c in s && !IsSpace(c)
    ensures c in TrimEnd(s)
  {
    if IsSpace(s[|s| - 1]) { TrimEndKeeps(s[..|s| - 1], c); }
  }

  /** The text of a row is one line, not blank, that splits back into its fields. */
  lemma RowLine(row: seq<string>)
    requires |row| >= 2 && forall i :: 0 <= i < |row| ==> Plain(row[i])
    ensures var line := Join(row, SEP);
            '\n' !in line && '\r' !in line && Trim(line) != [] && Split(line, SEP) == row
  {
    forall i | 0 <= i < |row| ensures '\n' !in row[i] && '\r' !in row[i] && SEP !in row[i] {
      assert Plain(row[i]);
    }
    JoinLacks(row, SEP, '\n');
    JoinLacks(row, SEP, '\r');
    SplitJoin(row, SEP);
    var line := Join(row, SEP);
    assert line[|row[0]|] == SEP;
    TrimStartKeeps(line, SEP);
    TrimEndKeeps(TrimStart(line), SEP);
  }

  lemma CleanRowLine(row: seq<string>)
    requires |row| >= 2 && CleanRow(row)
    ensures var line := Join(row, SEP);
            '\n' !in line && '\r' !in line && Trim(line) != [] && Split(line, SEP) == row
  {
    forall k | 0 <= k < |row| ensures Plain(row[k]) { assert Clean(row[k]); }
    RowLine(row);
  }

  lemma CleanTrimAll(row: seq<string>)
    requires CleanRow(row)
    ensures TrimAll(row) == row
  {
    forall i | 0 <= i < |row| ensures Trim(row[i]) == row[i] {
      assert Clean(row[i]);
      TrimTrims(row[i]);
    }
  }

  /** Row i of the file: the header, then the rows. */
  function TableRow(columns: seq<string>, rows: seq<seq<string>>, i: nat): seq<string>
    requires i <= |rows|
  {
    if i == 0 then columns else rows[i - 1]
  }

  lemma TableRowClean(columns: seq<string>, rows: seq<seq<string>>, i: nat)
    requires CleanTable(columns, rows) && i <= |rows|
    ensures |TableRow(columns, rows, i)| >= 2 && CleanRow(TableRow(columns, rows, i))
  {
  }

  function TableTexts(columns: seq<string>, rows: seq<seq<string>>): seq<string> {
    [Join(columns, SEP)] + JoinRows(rows)
  }

  lemma TableTextsAre(columns: seq<string>, rows: seq<seq<string>>, i: nat)
    requires i <= |rows|
    ensures |TableTexts(columns, rows)| == |rows| + 1
    ensures TableTexts(columns, rows)[i] == Join(TableRow(columns, rows, i), SEP)
  {
    if i > 0 { assert TableTexts(columns, rows)[i] == JoinRows(rows)[i - 1]; }
  }

  lemma TableLine(columns: seq<string>, rows: seq<seq<string>>, i: nat)
    requires CleanTable(columns, rows) && i <= |rows|
    ensures |TableTexts(columns, rows)| == |rows| + 1
    ensures var line := TableTexts(columns, rows)[i]; '\n' !in line && '\r' !in line && Trim(line) != []
  {
    TableRowClean(columns, rows, i);
    TableTextsAre(columns, rows, i);
    CleanRowLine(TableRow(columns, rows, i));
  }

  lemma TableLines(columns: seq<string>, rows: seq<seq<string>>)
    requires CleanTable(columns, rows)
    ensures NonBlank(Lines(ToCsv(columns, rows))) == TableTexts(columns, rows) && '\r' !in ToCsv(columns, rows)
  {
    var lines := TableTexts(columns, rows);
    forall i | 0 <= i < |lines| ensures '\n' !in lines[i] && '\r' !in lines[i] && Trim(lines[i]) != [] {
      TableLine(columns, rows, i);
    }
    SplitEol(lines);
    JoinLacks(lines, EOL, '\r');
    NonBlankKeeps(lines);
    assert Lines(ToCsv(columns, rows)) == lines + [""];
  }

  function FillAll(columns: seq<string>, rows: seq<seq<string>>): (records: seq<map<string, string>>)
    requires forall j :: 0 <= j < |rows| ==> |columns| <= |rows[j]|
    ensures |records| == |rows| && forall j :: 0 <= j < |rows| ==> records[j] == Fill(columns, rows[j])
  {
    if rows == [] then [] else [Fill(columns, rows[0])] + FillAll(columns, rows[1..])
  }

  lemma {:induction false} RecordsOfRows(columns: seq<string>, rows: seq<seq<string>>, line: nat)
    requires CleanTable(columns, rows)
    ensures Records(columns, JoinRows(rows), line) == Good(FillAll(columns, rows))
  {
    if rows == [] {
      assert JoinRows(rows) == [] && FillAll(columns, rows) == [];
    } else {
      CleanRowLine(rows[0]);
      RecordsOfRows(columns, rows[1..], line + 1);
      assert JoinRows(rows)[1..] == JoinRows(rows[1..]);
    }
  }

  /** The text as printed, or with a BOM, or with CRLF ends, or both. */
  predicate Delivered(text: string, printed: string) {
    text in {printed, ['\U{feff}'] + printed, Crlf(printed), ['\U{feff}'] + Crlf(printed)}
  }

  lemma {:induction false} MissingNone(required: seq<string>, header: seq<string>)
    requires forall i :: 0 <= i < |required| ==> required[i] in header
    ensures Missing(required, header) == []
  {
    if required != [] { MissingNone(required[1..], header); }
  }

  lemma DeliveredLines(text: string, columns: seq<string>, rows: seq<seq<string>>)
    requires CleanTable(columns, rows) && Delivered(text, ToCsv(columns, rows))
    ensures NonBlank(Lines(StripBom(text))) == [Join(columns, SEP)] + JoinRows(rows)
  {
    var printed := ToCsv(columns, rows);
    TableLines(columns, rows);
    CrlfSameLines(printed);
    assert printed[0] == columns[0][0];
    assert printed[0] != '\n';
    assert Crlf(printed)[0] == printed[0];
    assert (['\U{feff}'] + printed)[1..] == printed && (['\U{feff}'] + Crlf(printed))[1..] == Crlf(printed);
  }

  /** Parsing undoes printing on every table of clean fields, also after a BOM and CRLF ends
      were added on the way. */
  lemma CsvRoundTrip(text: string, columns: seq<string>, rows: seq<seq<string>>, required: seq<string>)
    requires CleanTable(columns, rows) && Delivered(text, ToCsv(columns, rows))
    requires forall i :: 0 <= i < |required| ==> required[i] in columns
    ensures ParseCsv(text, required) == Good(FillAll(columns, rows))
  {
    DeliveredLines(text, columns, rows);
    CleanRowLine(columns);
    CleanTrimAll(columns);
    MissingNone(required, columns);
    RecordsOfRows(columns, rows, 2);
    assert ([Join(columns, SEP)] + JoinRows(rows))[1..] == JoinRows(rows);
  }

  /** A cell of a clean row, found under its column. */
  lemma {:induction false} FillCell(header: seq<string>, cells: seq<string>, i: nat)
    requires |header| <= |cells| && i < |header|
    requires forall a, b :: 0 <= a < b < |header| ==> header[a] != header[b]
    ensures header[i] in Fill(header, cells) && Fill(header, cells)[header[i]] == Trim(cells[i])
  {
    var n := |header| - 1;
    if i < n { FillCell(header[..n], cells, i); }
  }
}
