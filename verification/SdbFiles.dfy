/** The four SDB files on top of the CSV format (`src/modules/brokerage/connectors/csv.ts`):
    ORD is written; ACK, EXE and CSH are read, and written by the simulation. */
module SdbFiles {
  import opened Decimals
  import opened Csv

  const ACK_COLUMNS: seq<string> := ["order_id", "status", "reject_code", "reject_text", "sdb_ref", "ack_at"]
  const ACK_REQUIRED: seq<string> := ["order_id", "status", "sdb_ref", "ack_at"]
  const EXE_COLUMNS: seq<string> :=
    ["order_id", "sdb_ref", "executed_qty", "price", "gross_amount", "courtage", "taxes", "net_amount",
     "settlement_date", "executed_at", "status"]
  const CSH_COLUMNS: seq<string> := ["date", "reference", "direction", "amount", "balance"]
  const ORD_COLUMNS: seq<string> :=
    ["order_id", "client_account_no", "client_name", "side", "isin", "quantity", "order_type", "validity",
     "max_amount_xaf", "created_at", "client_ref"]

  // ---------------------------------------------------------------- numerals

  predicate IsDigit(c: char) {
    '0' <= c <= '9'
  }

  predicate IsDigits(s: string) {
    s != [] && forall i :: 0 <= i < |s| ==> IsDigit(s[i])
  }

  function Unsigned(s: string): string {
    if s != [] && s[0] == '-' then s[1..] else s
  }

  /** `decimalField` accepts an optional minus sign, digits, and optionally a point and digits. */
  predicate IsNumeral(s: string) {
    var parts := Split(Unsigned(s), '.');
    if |parts| == 1 then IsDigits(parts[0]) else |parts| == 2 && IsDigits(parts[0]) && IsDigits(parts[1])
  }

  function Digit(d: nat): char
    requires d < 10
  {
    '0' + d as char
  }

  function Digits(n: nat): (s: string)
    ensures IsDigits(s)
  {
    if n < 10 then [Digit(n)] else Digits(n / 10) + [Digit(n % 10)]
  }

  function DigitValue(c: char): nat
    requires IsDigit(c)
  {
    c as int - '0' as int
  }

  function ReadNat(s: string): nat
    requires forall i :: 0 <= i < |s| ==> IsDigit(s[i])
  {
    if s == [] then 0 else 10 * ReadNat(s[..|s| - 1]) + DigitValue(s[|s| - 1])
  }

  lemma {:induction false} DigitsRead(n: nat)
    ensures ReadNat(Digits(n)) == n
  {
    if n < 10 {
      assert Digits(n)[..0] == [];
    } else {
      DigitsRead(n / 10);
      assert Digits(n)[..|Digits(n)| - 1] == Digits(n / 10);
    }
  }

  function Pow10(k: nat): nat {
    if k == 0 then 1 else 10 * Pow10(k - 1)
  }

  /** Digits after the point, in units of 10^-4. */
  function ReadFraction(s: string): nat
    requires |s| <= 4 && forall i :: 0 <= i < |s| ==> IsDigit(s[i])
  {
    ReadNat(s) * Pow10(4 - |s|)
  }

  /** The value of a numeral on the 10^-4 grid; Nothing when it is no numeral or is finer. */
  function ReadDecimal(s: string): Maybe<Dec> {
    if !IsNumeral(s) then Nothing
    else
      var parts := Split(Unsigned(s), '.');
      if |parts| == 2 && |parts[1]| > 4 then Nothing
      else
        var size := ReadNat(parts[0]) * ONE + (if |parts| == 2 then ReadFraction(parts[1]) else 0);
        Just(if s[0] == '-' then -size else size)
  }

  /** The four digits of `toFixed(4)` after the point. */
  function FourDigits(f: nat): (s: string)
    requires f < ONE
    ensures |s| == 4 && forall i :: 0 <= i < 4 ==> IsDigit(s[i])
  {
    [Digit(f / 1000), Digit(f / 100 % 10), Digit(f / 10 % 10), Digit(f % 10)]
  }

  function StripZeros(s: string): (t: string)
    ensures t <= s
  {
    if s != [] && s[|s| - 1] == '0' then StripZeros(s[..|s| - 1]) else s
  }

  /** `formatQuantity`: an integer without decimals, else up to four places. */
  function FormatQuantity(q: Dec): string {
    var size := if q < 0 then -q else q;
    var sign := if q < 0 then "-" else "";
    if size % ONE == 0 then sign + Digits(size / ONE)
    else sign + Digits(size / ONE) + "." + StripZeros(FourDigits(size % ONE))
  }

  function FormatAmount(a: Dec, currency: string): string {
    FormatQuantity(RoundMoney(a, currency))
  }

  lemma ReadNatSnoc(s: string, c: char)
    requires IsDigit(c) && forall i :: 0 <= i < |s| ==> IsDigit(s[i])
    ensures ReadNat(s + [c]) == 10 * ReadNat(s) + DigitValue(c)
  {
    assert (s + [c])[..|s|] == s;
  }

  lemma FourRead(a: nat, b: nat, c: nat, d: nat)
    requires a < 10 && b < 10 && c < 10 && d < 10
    ensures ReadNat([Digit(a), Digit(b), Digit(c), Digit(d)]) == 1000 * a + 100 * b + 10 * c + d
  {
    ReadNatSnoc([], Digit(a));
    assert [] + [Digit(a)] == [Digit(a)];
    ReadNatSnoc([Digit(a)], Digit(b));
    assert [Digit(a)] + [Digit(b)] == [Digit(a), Digit(b)];
    ReadNatSnoc([Digit(a), Digit(b)], Digit(c));
    assert [Digit(a), Digit(b)] + [Digit(c)] == [Digit(a), Digit(b), Digit(c)];
    ReadNatSnoc([Digit(a), Digit(b), Digit(c)], Digit(d));
    assert [Digit(a), Digit(b), Digit(c)] + [Digit(d)] == [Digit(a), Digit(b), Digit(c), Digit(d)];
  }

  lemma FourDigitsRead(f: nat)
    requires f < ONE
    ensures ReadFraction(FourDigits(f)) == f
  {
    FourRead(f / 1000, f / 100 % 10, f / 10 % 10, f % 10);
    FourSum(f);
    assert Pow10(0) == 1;
  }

  lemma FourSum(f: nat)
    requires f < ONE
    ensures 1000 * (f / 1000) + 100 * (f / 100 % 10) + 10 * (f / 10 % 10) + f % 10 == f
  {
    assert f / 100 / 10 == f / 1000 && f / 10 / 10 == f / 100;
  }

  lemma {:induction false} StripKeepsValue(s: string)
    requires |s| <= 4 && forall i :: 0 <= i < |s| ==> IsDigit(s[i])
    ensures ReadFraction(StripZeros(s)) == ReadFraction(s)
  {
    if s != [] && s[|s| - 1] == '0' {
      var t := s[..|s| - 1];
      StripKeepsValue(t);
      assert ReadNat(s) == 10 * ReadNat(t);
      assert Pow10(4 - |t|) == 10 * Pow10(4 - |s|);
      assert ReadNat(s) * Pow10(4 - |s|) == ReadNat(t) * Pow10(4 - |t|);
    }
  }

  lemma DigitsHaveNo(s: string, c: char)
    requires (forall i :: 0 <= i < |s| ==> IsDigit(s[i])) && !IsDigit(c)
    ensures c !in s
  {
  }

  /** The parts of a printed numeral. */
  lemma NumeralParts(q: Dec)
    ensures var size := if q < 0 then -q else q;
            Split(Unsigned(FormatQuantity(q)), '.') ==
            if size % ONE == 0 then [Digits(size / ONE)]
            else [Digits(size / ONE), StripZeros(FourDigits(size % ONE))]
  {
    var size := if q < 0 then -q else q;
    var whole := Digits(size / ONE);
    DigitsHaveNo(whole, '.');
    DigitsHaveNo(whole, '-');
    if size % ONE == 0 {
      assert Unsigned(FormatQuantity(q)) == whole;
      SplitOne(whole, '.');
    } else {
      var fraction := StripZeros(FourDigits(size % ONE));
      assert Unsigned(FormatQuantity(q)) == whole + ['.'] + fraction;
      DigitsHaveNo(fraction, '.');
      SplitFirst(whole, fraction, '.');
      SplitOne(fraction, '.');
    }
  }

  /** A quantity is printed as a numeral the parser accepts, and reads back to itself. */
  lemma QuantityRoundTrip(q: Dec)
    ensures IsNumeral(FormatQuantity(q)) && ReadDecimal(FormatQuantity(q)) == Just(q)
  {
    var size := if q < 0 then -q else q;
    NumeralParts(q);
    DigitsRead(size / ONE);
    if size % ONE != 0 {
      FourDigitsRead(size % ONE);
      StripKeepsValue(FourDigits(size % ONE));
      assert ReadFraction([]) == 0;
    }
    DigitsHaveNo(Digits(size / ONE), '-');
  }

  /** A numeral holds no separator, break or space. */
  lemma NumeralClean(s: string)
    requires IsNumeral(s)
    ensures Clean(s) && s != []
  {
    var body := Unsigned(s);
    var parts := Split(body, '.');
    JoinSplit(body, '.');
    if |parts| == 2 { assert body == parts[0] + ['.'] + parts[1]; } else { assert body == parts[0]; }
    assert forall i :: 0 <= i < |body| ==> IsDigit(body[i]) || body[i] == '.';
    assert forall i :: 0 <= i < |s| ==> IsDigit(s[i]) || s[i] == '.' || s[i] == '-';
  }

  // ------------------------------------------------------------------ records

  function Get(r: map<string, string>, column: string): string {
    if column in r then r[column] else ""
  }

  /** The records one by one; the first faulty one is reported. */
  function ReadAll<T>(records: seq<map<string, string>>, read: (map<string, string>, nat) -> Parsed<T>, line: nat)
    : Parsed<seq<T>>
  {
    if records == [] then Good([])
    else match read(records[0], line)
      case Bad(e) => Bad(e)
      case Good(x) =>
        match ReadAll(records[1..], read, line + 1)
        case Bad(e) => Bad(e)
        case Good(rest) => Good([x] + rest)
  }

  lemma {:induction false} ReadAllGood<T>(records: seq<map<string, string>>, read: (map<string, string>, nat) -> Parsed<T>,
                                          line: nat, xs: seq<T>)
    requires |xs| == |records| && forall j :: 0 <= j < |xs| ==> read(records[j], line + j) == Good(xs[j])
    ensures ReadAll(records, read, line) == Good(xs)
  {
    if records != [] {
      forall j | 0 <= j < |xs[1..]| ensures read(records[1..][j], line + 1 + j) == Good(xs[1..][j]) {
        assert read(records[j + 1], line + (j + 1)) == Good(xs[j + 1]);
      }
      ReadAllGood(records[1..], read, line + 1, xs[1..]);
      assert [xs[0]] + xs[1..] == xs;
    }
  }

  /** When each printed row reads as its line, so do the records. */
  lemma RowsRead<T>(columns: seq<string>, rows: seq<seq<string>>, read: (map<string, string>, nat) -> Parsed<T>, xs: seq<T>)
    requires |xs| == |rows| && forall j :: 0 <= j < |rows| ==> |columns| <= |rows[j]|
    requires forall j :: 0 <= j < |xs| ==> read(Fill(columns, rows[j]), 2 + j) == Good(xs[j])
    ensures ReadAll(FillAll(columns, rows), read, 2) == Good(xs)
  {
    ReadAllGood(FillAll(columns, rows), read, 2, xs);
  }

  /** A cell of a clean row reads as printed. */
  lemma Cell(columns: seq<string>, row: seq<string>, i: nat)
    requires |row| == |columns| && i < |columns| && CleanRow(row)
    requires forall a, b :: 0 <= a < b < |columns| ==> columns[a] != columns[b]
    ensures Get(Fill(columns, row), columns[i]) == row[i]
  {
    FillCell(columns, row, i);
    assert Clean(row[i]);
    TrimTrims(row[i]);
  }

  function Optional(s: string): Maybe<string> {
    if s == "" then Nothing else Just(s)
  }

  function Text(s: Maybe<string>): string {
    if s.Just? then s.value else ""
  }

  // --------------------------------------------------------------------- ACK

  datatype AckStatus = ACCEPTED | REJECTED
  datatype Ack = Ack(orderId: string, status: AckStatus, rejectCode: Maybe<string>, rejectText: Maybe<string>,
                     sdbRef: string, ackAt: string)

  function AckFields(a: Ack): seq<string> {
    [a.orderId, if a.status == ACCEPTED then "ACCEPTED" else "REJECTED", Text(a.rejectCode), Sanitize(Text(a.rejectText)),
     a.sdbRef, a.ackAt]
  }

  function AckRows(acks: seq<Ack>): seq<seq<string>> {
    seq(|acks|, j requires 0 <= j < |acks| => AckFields(acks[j]))
  }

  function AckToCsv(acks: seq<Ack>): string {
    ToCsv(ACK_COLUMNS, AckRows(acks))
  }

  function ReadAck(r: map<string, string>, line: nat): Parsed<Ack> {
    var status := Get(r, "status");
    if status != "ACCEPTED" && status != "REJECTED" then Bad(BadValue(line, "status"))
    else Good(Ack(Get(r, "order_id"), if status == "ACCEPTED" then ACCEPTED else REJECTED, Optional(Get(r, "reject_code")),
                  Optional(Get(r, "reject_text")), Get(r, "sdb_ref"), Get(r, "ack_at")))
  }

  function ParseAck(text: string): Parsed<seq<Ack>> {
    match ParseCsv(text, ACK_REQUIRED)
    case Bad(e) => Bad(e)
    case Good(records) => ReadAll(records, ReadAck, 2)
  }

  predicate CleanAck(a: Ack) {
    && Clean(a.orderId) && Clean(a.sdbRef) && Clean(a.ackAt)
    && (a.rejectCode.Just? ==> Clean(a.rejectCode.value) && a.rejectCode.value != "")
    && (a.rejectText.Just? ==> Clean(a.rejectText.value) && a.rejectText.value != "")
  }

  predicate DistinctColumns(columns: seq<string>) {
    forall a, b :: 0 <= a < b < |columns| ==> columns[a] != columns[b]
  }

  predicate IsWord(s: string) {
    s != [] && forall i :: 0 <= i < |s| ==> 'a' <= s[i] <= 'z' || s[i] == '_'
  }

  lemma WordClean(s: string)
    requires IsWord(s)
    ensures Clean(s)
  {
  }

  /** Length, first and last letter: enough to tell the columns of a file apart. */
  function Tag(s: string): int
    requires s != []
  {
    |s| * 1000000 + s[0] as int * 1000 + s[|s| - 1] as int
  }

  predicate Words(columns: seq<string>) {
    forall i :: 0 <= i < |columns| ==> IsWord(columns[i])
  }

  lemma HeaderOk(columns: seq<string>)
    requires |columns| >= 2 && Words(columns)
    requires forall a, b :: 0 <= a < b < |columns| ==> Tag(columns[a]) != Tag(columns[b])
    ensures CleanRow(columns) && DistinctColumns(columns) && columns[0] != [] && !IsSpace(columns[0][0])
  {
    forall i | 0 <= i < |columns| ensures Clean(columns[i]) { WordClean(columns[i]); }
    assert IsWord(columns[0]);
  }

  lemma AckHeader()
    ensures CleanRow(ACK_COLUMNS) && DistinctColumns(ACK_COLUMNS) && |ACK_COLUMNS| == 6
    ensures ACK_COLUMNS[0] != [] && !IsSpace(ACK_COLUMNS[0][0])
  {
    var c := ACK_COLUMNS;
    assert IsWord(c[0]) && IsWord(c[1]) && IsWord(c[2]) && IsWord(c[3]) && IsWord(c[4]) && IsWord(c[5]);
    HeaderOk(c);
  }

  lemma ExeWords()
    ensures Words(EXE_COLUMNS) && |EXE_COLUMNS| == 11
  {
    var c := EXE_COLUMNS;
    assert IsWord(c[0]) && IsWord(c[1]) && IsWord(c[2]) && IsWord(c[3]) && IsWord(c[4]) && IsWord(c[5]) && IsWord(c[6]);
    assert IsWord(c[7]) && IsWord(c[8]) && IsWord(c[9]) && IsWord(c[10]);
  }

  lemma ExeTags(tags: seq<int>)
    requires tags == [8111100, 7115102, 12101121, 5112101, 12103116, 8099101, 5116115, 10110116, 15115101, 11101116, 6115115]
    ensures |EXE_COLUMNS| == 11 && forall i :: 0 <= i < 11 ==> EXE_COLUMNS[i] != [] && Tag(EXE_COLUMNS[i]) == tags[i]
  {
  }

  lemma ExeHeader()
    ensures CleanRow(EXE_COLUMNS) && DistinctColumns(EXE_COLUMNS) && |EXE_COLUMNS| == 11
    ensures EXE_COLUMNS[0] != [] && !IsSpace(EXE_COLUMNS[0][0])
  {
    var tags := [8111100, 7115102, 12101121, 5112101, 12103116, 8099101, 5116115, 10110116, 15115101, 11101116, 6115115];
    ExeWords();
    ExeTags(tags);
    HeaderOk(EXE_COLUMNS);
  }

  lemma CshHeader()
    ensures CleanRow(CSH_COLUMNS) && DistinctColumns(CSH_COLUMNS) && |CSH_COLUMNS| == 5
    ensures CSH_COLUMNS[0] != [] && !IsSpace(CSH_COLUMNS[0][0])
  {
    var c := CSH_COLUMNS;
    assert IsWord(c[0]) && IsWord(c[1]) && IsWord(c[2]) && IsWord(c[3]) && IsWord(c[4]);
    HeaderOk(c);
  }

  /** Every cell of a clean row reads as printed. */
  lemma Cells(columns: seq<string>, row: seq<string>)
    requires |row| == |columns| && CleanRow(row) && DistinctColumns(columns)
    ensures forall i :: 0 <= i < |columns| ==> Get(Fill(columns, row), columns[i]) == row[i]
  {
    forall i | 0 <= i < |columns| ensures Get(Fill(columns, row), columns[i]) == row[i] { Cell(columns, row, i); }
  }

  lemma AckFieldsClean(a: Ack)
    requires CleanAck(a)
    ensures CleanRow(AckFields(a)) && Sanitize(Text(a.rejectText)) == Text(a.rejectText)
  {
    SanitizeCleans(Text(a.rejectText));
    CodeClean(a.status);
    var row := AckFields(a);
    forall i | 0 <= i < |row| ensures Clean(row[i]) {
      if i == 0 { assert row[i] == a.orderId; }
      else if i == 2 { assert row[i] == Text(a.rejectCode); }
      else if i == 4 { assert row[i] == a.sdbRef; }
      else if i == 5 { assert row[i] == a.ackAt; }
    }
  }

  lemma CodeClean(s: AckStatus)
    ensures Clean(if s == ACCEPTED then "ACCEPTED" else "REJECTED")
  {
  }

  /** A record whose cells are the fields of an ACK line reads as that line. */
  lemma AckReads(r: map<string, string>, a: Ack, line: nat)
    requires forall i :: 0 <= i < 6 ==> Get(r, ACK_COLUMNS[i]) == AckFields(a)[i]
    requires Sanitize(Text(a.rejectText)) == Text(a.rejectText)
    requires (a.rejectCode.Just? ==> a.rejectCode.value != "") && (a.rejectText.Just? ==> a.rejectText.value != "")
    ensures ReadAck(r, line) == Good(a)
  {
    var c := ACK_COLUMNS;
    assert Get(r, c[0]) == a.orderId;
    assert Get(r, c[1]) == if a.status == ACCEPTED then "ACCEPTED" else "REJECTED";
    assert Get(r, c[2]) == Text(a.rejectCode);
    assert Get(r, c[3]) == Text(a.rejectText);
    assert Get(r, c[4]) == a.sdbRef;
    assert Get(r, c[5]) == a.ackAt;
  }

  lemma AckCells(a: Ack, line: nat)
    requires CleanAck(a)
    ensures CleanRow(AckFields(a)) && ReadAck(Fill(ACK_COLUMNS, AckFields(a)), line) == Good(a)
  {
    AckHeader();
    AckFieldsClean(a);
    Cells(ACK_COLUMNS, AckFields(a));
    AckReads(Fill(ACK_COLUMNS, AckFields(a)), a, line);
  }

  lemma AckTable(acks: seq<Ack>)
    requires forall j :: 0 <= j < |acks| ==> CleanAck(acks[j])
    ensures CleanTable(ACK_COLUMNS, AckRows(acks))
  {
    AckHeader();
    forall j | 0 <= j < |acks| ensures |AckRows(acks)[j]| == 6 && CleanRow(AckRows(acks)[j]) { AckFieldsClean(acks[j]); }
  }

  lemma AckAllRead(acks: seq<Ack>)
    requires forall j :: 0 <= j < |acks| ==> CleanAck(acks[j])
    ensures forall j :: 0 <= j < |acks| ==>
      |AckRows(acks)[j]| == |ACK_COLUMNS| && ReadAck(Fill(ACK_COLUMNS, AckRows(acks)[j]), 2 + j) == Good(acks[j])
  {
    forall j | 0 <= j < |acks|
      ensures |AckRows(acks)[j]| == |ACK_COLUMNS| && ReadAck(Fill(ACK_COLUMNS, AckRows(acks)[j]), 2 + j) == Good(acks[j])
    {
      AckCells(acks[j], 2 + j);
    }
  }

  lemma AckRecords(acks: seq<Ack>, text: string)
    requires forall j :: 0 <= j < |acks| ==> CleanAck(acks[j])
    requires Delivered(text, AckToCsv(acks))
    ensures CleanTable(ACK_COLUMNS, AckRows(acks))
    ensures ParseCsv(text, ACK_REQUIRED) == Good(FillAll(ACK_COLUMNS, AckRows(acks)))
  {
    AckTable(acks);
    RequiredThere();
    CsvRoundTrip(text, ACK_COLUMNS, AckRows(acks), ACK_REQUIRED);
  }

  lemma AckRowsRead(acks: seq<Ack>)
    requires forall j :: 0 <= j < |acks| ==> CleanAck(acks[j])
    ensures forall j :: 0 <= j < |AckRows(acks)| ==> |ACK_COLUMNS| <= |AckRows(acks)[j]|
    ensures ReadAll(FillAll(ACK_COLUMNS, AckRows(acks)), ReadAck, 2) == Good(acks)
  {
    AckAllRead(acks);
    RowsRead(ACK_COLUMNS, AckRows(acks), ReadAck, acks);
  }

  /** Reading an ACK file gives back the clean lines it was written from. */
  lemma AckRoundTrip(acks: seq<Ack>, text: string)
    requires forall j :: 0 <= j < |acks| ==> CleanAck(acks[j])
    requires Delivered(text, AckToCsv(acks))
    ensures ParseAck(text) == Good(acks)
  {
    AckRecords(acks, text);
    AckRowsRead(acks);
  }

  lemma RequiredThere()
    ensures forall i :: 0 <= i < |ACK_REQUIRED| ==> ACK_REQUIRED[i] in ACK_COLUMNS
  {
    assert ACK_COLUMNS[0] == "order_id" && ACK_COLUMNS[1] == "status" && ACK_COLUMNS[4] == "sdb_ref" && ACK_COLUMNS[5] == "ack_at";
  }

  // --------------------------------------------------------------------- EXE

  datatype ExeStatus = FILLED | PARTIAL | UNFILLED
  datatype Exe = Exe(orderId: string, sdbRef: string, executedQty: string, price: string, gross: string, courtage: string,
                     taxes: string, net: string, settlementDate: string, executedAt: string, status: ExeStatus)

  function StatusText(s: ExeStatus): string {
    match s
    case FILLED => "FILLED"
    case PARTIAL => "PARTIAL"
    case UNFILLED => "UNFILLED"
  }

  function ExeFields(e: Exe): seq<string> {
    [e.orderId, e.sdbRef, e.executedQty, e.price, e.gross, e.courtage, e.taxes, e.net, e.settlementDate, e.executedAt,
     StatusText(e.status)]
  }

  function ExeRows(exes: seq<Exe>): seq<seq<string>> {
    seq(|exes|, j requires 0 <= j < |exes| => ExeFields(exes[j]))
  }

  function ExeToCsv(exes: seq<Exe>): string {
    ToCsv(EXE_COLUMNS, ExeRows(exes))
  }

  /** An absent courtage or tax counts as zero. */
  function OrZero(s: string): string {
    if s == "" then "0" else s
  }

  function ReadExe(r: map<string, string>, line: nat): Parsed<Exe> {
    var qty, price, gross := Get(r, "executed_qty"), Get(r, "price"), Get(r, "gross_amount");
    var courtage, taxes, net := OrZero(Get(r, "courtage")), OrZero(Get(r, "taxes")), Get(r, "net_amount");
    var status := Get(r, "status");
    if !IsNumeral(qty) then Bad(BadValue(line, "executed_qty"))
    else if !IsNumeral(price) then Bad(BadValue(line, "price"))
    else if !IsNumeral(gross) then Bad(BadValue(line, "gross_amount"))
    else if !IsNumeral(courtage) then Bad(BadValue(line, "courtage"))
    else if !IsNumeral(taxes) then Bad(BadValue(line, "taxes"))
    else if !IsNumeral(net) then Bad(BadValue(line, "net_amount"))
    else if status != "FILLED" && status != "PARTIAL" && status != "UNFILLED" then Bad(BadValue(line, "status"))
    else Good(Exe(Get(r, "order_id"), Get(r, "sdb_ref"), qty, price, gross, courtage, taxes, net, Get(r, "settlement_date"),
                  Get(r, "executed_at"),
                  if status == "FILLED" then FILLED else if status == "PARTIAL" then PARTIAL else UNFILLED))
  }

  function ParseExe(text: string): Parsed<seq<Exe>> {
    match ParseCsv(text, EXE_COLUMNS)
    case Bad(e) => Bad(e)
    case Good(records) => ReadAll(records, ReadExe, 2)
  }

  predicate CleanExe(e: Exe) {
    && Clean(e.orderId) && Clean(e.sdbRef) && Clean(e.settlementDate) && Clean(e.executedAt)
    && IsNumeral(e.executedQty) && IsNumeral(e.price) && IsNumeral(e.gross) && IsNumeral(e.courtage) && IsNumeral(e.taxes)
    && IsNumeral(e.net)
  }

  lemma StatusClean(s: ExeStatus)
    ensures Clean(StatusText(s))
  {
  }

  lemma ExeFieldsClean(e: Exe)
    requires CleanExe(e)
    ensures CleanRow(ExeFields(e))
  {
    StatusClean(e.status);
    var row := ExeFields(e);
    forall i | 0 <= i < |row| ensures Clean(row[i]) {
      if 2 <= i < 8 { NumeralClean(row[i]); }
    }
  }

  /** A record whose cells are the fields of an EXE line reads as that line. */
  lemma ExeReads(r: map<string, string>, e: Exe, line: nat)
    requires forall i :: 0 <= i < 11 ==> Get(r, EXE_COLUMNS[i]) == ExeFields(e)[i]
    requires IsNumeral(e.executedQty) && IsNumeral(e.price) && IsNumeral(e.gross) && IsNumeral(e.courtage)
    requires IsNumeral(e.taxes) && IsNumeral(e.net) && e.courtage != "" && e.taxes != ""
    ensures ReadExe(r, line) == Good(e)
  {
    var c := EXE_COLUMNS;
    assert Get(r, c[0]) == e.orderId && Get(r, c[1]) == e.sdbRef && Get(r, c[2]) == e.executedQty;
    assert Get(r, c[3]) == e.price && Get(r, c[4]) == e.gross && Get(r, c[5]) == e.courtage;
    assert Get(r, c[6]) == e.taxes && Get(r, c[7]) == e.net && Get(r, c[8]) == e.settlementDate;
    assert Get(r, c[9]) == e.executedAt && Get(r, c[10]) == StatusText(e.status);
  }

  lemma ExeCells(e: Exe, line: nat)
    requires CleanExe(e)
    ensures ReadExe(Fill(EXE_COLUMNS, ExeFields(e)), line) == Good(e)
  {
    ExeHeader();
    ExeFieldsClean(e);
    Cells(EXE_COLUMNS, ExeFields(e));
    NumeralClean(e.courtage);
    NumeralClean(e.taxes);
    ExeReads(Fill(EXE_COLUMNS, ExeFields(e)), e, line);
  }

  lemma ExeTable(exes: seq<Exe>)
    requires forall j :: 0 <= j < |exes| ==> CleanExe(exes[j])
    ensures CleanTable(EXE_COLUMNS, ExeRows(exes))
  {
    ExeHeader();
    forall j | 0 <= j < |exes| ensures |ExeRows(exes)[j]| == 11 && CleanRow(ExeRows(exes)[j]) { ExeFieldsClean(exes[j]); }
  }

  lemma ExeAllRead(exes: seq<Exe>)
    requires forall j :: 0 <= j < |exes| ==> CleanExe(exes[j])
    ensures forall j :: 0 <= j < |exes| ==>
      |ExeRows(exes)[j]| == |EXE_COLUMNS| && ReadExe(Fill(EXE_COLUMNS, ExeRows(exes)[j]), 2 + j) == Good(exes[j])
  {
    forall j | 0 <= j < |exes|
      ensures |ExeRows(exes)[j]| == |EXE_COLUMNS| && ReadExe(Fill(EXE_COLUMNS, ExeRows(exes)[j]), 2 + j) == Good(exes[j])
    {
      ExeCells(exes[j], 2 + j);
    }
  }

  lemma ExeRecords(exes: seq<Exe>, text: string)
    requires forall j :: 0 <= j < |exes| ==> CleanExe(exes[j])
    requires Delivered(text, ExeToCsv(exes))
    ensures CleanTable(EXE_COLUMNS, ExeRows(exes))
    ensures ParseCsv(text, EXE_COLUMNS) == Good(FillAll(EXE_COLUMNS, ExeRows(exes)))
  {
    ExeTable(exes);
    CsvRoundTrip(text, EXE_COLUMNS, ExeRows(exes), EXE_COLUMNS);
  }

  lemma ExeRowsRead(exes: seq<Exe>)
    requires forall j :: 0 <= j < |exes| ==> CleanExe(exes[j])
    ensures forall j :: 0 <= j < |ExeRows(exes)| ==> |EXE_COLUMNS| <= |ExeRows(exes)[j]|
    ensures ReadAll(FillAll(EXE_COLUMNS, ExeRows(exes)), ReadExe, 2) == Good(exes)
  {
    ExeAllRead(exes);
    RowsRead(EXE_COLUMNS, ExeRows(exes), ReadExe, exes);
  }

  /** Reading an EXE file gives back the clean lines it was written from. */
  lemma ExeRoundTrip(exes: seq<Exe>, text: string)
    requires forall j :: 0 <= j < |exes| ==> CleanExe(exes[j])
    requires Delivered(text, ExeToCsv(exes))
    ensures ParseExe(text) == Good(exes)
  {
    ExeRecords(exes, text);
    ExeRowsRead(exes);
  }

  // --------------------------------------------------------------------- CSH

  datatype Flow = Incoming | Outgoing
  datatype Csh = Csh(date: string, reference: string, direction: Flow, amount: string, balance: string)

  function CshFields(c: Csh): seq<string> {
    [c.date, c.reference, if c.direction == Incoming then "IN" else "OUT", c.amount, c.balance]
  }

  function CshRows(lines: seq<Csh>): seq<seq<string>> {
    seq(|lines|, j requires 0 <= j < |lines| => CshFields(lines[j]))
  }

  function CshToCsv(lines: seq<Csh>): string {
    ToCsv(CSH_COLUMNS, CshRows(lines))
  }

  function ReadCsh(r: map<string, string>, line: nat): Parsed<Csh> {
    var direction := Get(r, "direction");
    if direction != "IN" && direction != "OUT" then Bad(BadValue(line, "direction"))
    else if !IsNumeral(Get(r, "amount")) then Bad(BadValue(line, "amount"))
    else if !IsNumeral(Get(r, "balance")) then Bad(BadValue(line, "balance"))
    else Good(Csh(Get(r, "date"), Get(r, "reference"), if direction == "IN" then Incoming else Outgoing, Get(r, "amount"),
                  Get(r, "balance")))
  }

  function ParseCsh(text: string): Parsed<seq<Csh>> {
    match ParseCsv(text, CSH_COLUMNS)
    case Bad(e) => Bad(e)
    case Good(records) => ReadAll(records, ReadCsh, 2)
  }

  predicate CleanCsh(c: Csh) {
    Clean(c.date) && Clean(c.reference) && IsNumeral(c.amount) && IsNumeral(c.balance)
  }

  lemma CshFieldsClean(c: Csh)
    requires CleanCsh(c)
    ensures CleanRow(CshFields(c))
  {
    FlowClean(c.direction);
    var row := CshFields(c);
    forall i | 0 <= i < |row| ensures Clean(row[i]) {
      if i >= 3 { NumeralClean(row[i]); }
    }
  }

  lemma FlowClean(f: Flow)
    ensures Clean(if f == Incoming then "IN" else "OUT")
  {
  }

  /** A record whose cells are the fields of a CSH line reads as that line. */
  lemma CshReads(r: map<string, string>, c: Csh, line: nat)
    requires forall i :: 0 <= i < 5 ==> Get(r, CSH_COLUMNS[i]) == CshFields(c)[i]
    requires IsNumeral(c.amount) && IsNumeral(c.balance)
    ensures ReadCsh(r, line) == Good(c)
  {
    var h := CSH_COLUMNS;
    assert Get(r, h[0]) == c.date && Get(r, h[1]) == c.reference;
    assert Get(r, h[2]) == if c.direction == Incoming then "IN" else "OUT";
    assert Get(r, h[3]) == c.amount && Get(r, h[4]) == c.balance;
  }

  lemma CshCells(c: Csh, line: nat)
    requires CleanCsh(c)
    ensures ReadCsh(Fill(CSH_COLUMNS, CshFields(c)), line) == Good(c)
  {
    CshHeader();
    CshFieldsClean(c);
    Cells(CSH_COLUMNS, CshFields(c));
    CshReads(Fill(CSH_COLUMNS, CshFields(c)), c, line);
  }

  lemma CshTable(lines: seq<Csh>)
    requires forall j :: 0 <= j < |lines| ==> CleanCsh(lines[j])
    ensures CleanTable(CSH_COLUMNS, CshRows(lines))
  {
    CshHeader();
    forall j | 0 <= j < |lines| ensures |CshRows(lines)[j]| == 5 && CleanRow(CshRows(lines)[j]) { CshFieldsClean(lines[j]); }
  }

  lemma CshAllRead(lines: seq<Csh>)
    requires forall j :: 0 <= j < |lines| ==> CleanCsh(lines[j])
    ensures forall j :: 0 <= j < |lines| ==>
      |CshRows(lines)[j]| == |CSH_COLUMNS| && ReadCsh(Fill(CSH_COLUMNS, CshRows(lines)[j]), 2 + j) == Good(lines[j])
  {
    forall j | 0 <= j < |lines|
      ensures |CshRows(lines)[j]| == |CSH_COLUMNS| && ReadCsh(Fill(CSH_COLUMNS, CshRows(lines)[j]), 2 + j) == Good(lines[j])
    {
      CshCells(lines[j], 2 + j);
    }
  }

  lemma CshRecords(lines: seq<Csh>, text: string)
    requires forall j :: 0 <= j < |lines| ==> CleanCsh(lines[j])
    requires Delivered(text, CshToCsv(lines))
    ensures CleanTable(CSH_COLUMNS, CshRows(lines))
    ensures ParseCsv(text, CSH_COLUMNS) == Good(FillAll(CSH_COLUMNS, CshRows(lines)))
  {
    CshTable(lines);
    CsvRoundTrip(text, CSH_COLUMNS, CshRows(lines), CSH_COLUMNS);
  }

  lemma CshRowsRead(lines: seq<Csh>)
    requires forall j :: 0 <= j < |lines| ==> CleanCsh(lines[j])
    ensures forall j :: 0 <= j < |CshRows(lines)| ==> |CSH_COLUMNS| <= |CshRows(lines)[j]|
    ensures ReadAll(FillAll(CSH_COLUMNS, CshRows(lines)), ReadCsh, 2) == Good(lines)
  {
    CshAllRead(lines);
    RowsRead(CSH_COLUMNS, CshRows(lines), ReadCsh, lines);
  }

  /** Reading a CSH file gives back the clean lines it was written from. */
  lemma CshRoundTrip(lines: seq<Csh>, text: string)
    requires forall j :: 0 <= j < |lines| ==> CleanCsh(lines[j])
    requires Delivered(text, CshToCsv(lines))
    ensures ParseCsh(text) == Good(lines)
  {
    CshRecords(lines, text);
    CshRowsRead(lines);
  }

  // --------------------------------------------------------------------- ORD

  /** What goes in one ORD row. Account number, name, ISIN or symbol and validity are free
      text; the ids, the order type and the timestamp are the program's own. */
  datatype OrdLine = OrdLine(orderId: string, accountNo: string, fullName: string, buy: bool, isin: Maybe<string>,
                             symbol: string, quantity: Dec, orderType: string, validity: string, maxAmount: Dec,
                             currency: string, createdAt: string, clientRef: string)

  function SideText(buy: bool): string {
    if buy then "BUY" else "SELL"
  }

  function OrdFields(l: OrdLine): seq<string> {
    [l.orderId, Sanitize(l.accountNo), Sanitize(l.fullName), SideText(l.buy),
     Sanitize(if l.isin.Just? then l.isin.value else l.symbol), FormatQuantity(l.quantity), l.orderType,
     Sanitize(l.validity), FormatAmount(l.maxAmount, l.currency), l.createdAt, l.clientRef]
  }

  function OrdRows(lines: seq<OrdLine>): seq<seq<string>> {
    seq(|lines|, j requires 0 <= j < |lines| => OrdFields(lines[j]))
  }

  function BuildOrdCsv(lines: seq<OrdLine>): string {
    ToCsv(ORD_COLUMNS, OrdRows(lines))
  }

  predicate SystemText(l: OrdLine) {
    Plain(l.orderId) && Plain(l.orderType) && Plain(l.createdAt) && Plain(l.clientRef)
  }

  lemma SideClean(buy: bool)
    ensures Plain(SideText(buy))
  {
  }

  lemma QuantityPlain(q: Dec)
    ensures Plain(FormatQuantity(q))
  {
    QuantityRoundTrip(q);
    NumeralClean(FormatQuantity(q));
  }

  lemma OrdFieldsPlain(l: OrdLine)
    requires SystemText(l)
    ensures forall i :: 0 <= i < |OrdFields(l)| ==> Plain(OrdFields(l)[i])
  {
    QuantityPlain(l.quantity);
    QuantityPlain(RoundMoney(l.maxAmount, l.currency));
    SideClean(l.buy);
    PlainAll(OrdFields(l));
  }

  lemma PlainAll(row: seq<string>)
    requires |row| == 11 && Plain(row[0]) && Plain(row[1]) && Plain(row[2]) && Plain(row[3]) && Plain(row[4]) && Plain(row[5])
    requires Plain(row[6]) && Plain(row[7]) && Plain(row[8]) && Plain(row[9]) && Plain(row[10])
    ensures forall i :: 0 <= i < |row| ==> Plain(row[i])
  {
  }

  lemma OrdRowLine(l: OrdLine)
    requires SystemText(l)
    ensures EOL !in Join(OrdFields(l), SEP) && Split(Join(OrdFields(l), SEP), SEP) == OrdFields(l)
  {
    OrdFieldsPlain(l);
    RowLine(OrdFields(l));
  }

  lemma OrdWords()
    ensures Words(ORD_COLUMNS) && |ORD_COLUMNS| == 11
  {
    var c := ORD_COLUMNS;
    assert IsWord(c[0]) && IsWord(c[1]) && IsWord(c[2]) && IsWord(c[3]) && IsWord(c[4]) && IsWord(c[5]) && IsWord(c[6]);
    assert IsWord(c[7]) && IsWord(c[8]) && IsWord(c[9]) && IsWord(c[10]);
  }

  lemma WordsLine(columns: seq<string>)
    requires Words(columns) && |columns| >= 2
    ensures EOL !in Join(columns, SEP) && Split(Join(columns, SEP), SEP) == columns
  {
    forall i | 0 <= i < |columns| ensures Plain(columns[i]) { WordClean(columns[i]); }
    RowLine(columns);
  }

  function OrdTexts(lines: seq<OrdLine>): seq<string> {
    [Join(ORD_COLUMNS, SEP)] + JoinRows(OrdRows(lines))
  }

  lemma OrdTextsHeader(lines: seq<OrdLine>)
    ensures |OrdTexts(lines)| == |lines| + 1 && OrdTexts(lines)[0] == Join(ORD_COLUMNS, SEP)
  {
  }

  lemma OrdTextsAre(lines: seq<OrdLine>, j: nat)
    requires j < |lines|
    ensures j + 1 < |OrdTexts(lines)| && OrdTexts(lines)[j + 1] == Join(OrdFields(lines[j]), SEP)
  {
    assert OrdTexts(lines)[j + 1] == JoinRows(OrdRows(lines))[j];
  }

  /** The quantity and the amount of an ORD row read back. */
  lemma OrdNumbers(l: OrdLine)
    ensures |OrdFields(l)| == 11
    ensures OrdFields(l)[5] == FormatQuantity(l.quantity)
    ensures OrdFields(l)[8] == FormatQuantity(RoundMoney(l.maxAmount, l.currency))
  {
  }

  predicate OrdRowOk(row: string, l: OrdLine) {
    var fields := Split(row, SEP);
    && |fields| == 11 && fields == OrdFields(l)
    && ReadDecimal(fields[5]) == Just(l.quantity) && ReadDecimal(fields[8]) == Just(RoundMoney(l.maxAmount, l.currency))
  }

  lemma OrdRowReads(row: string, l: OrdLine)
    requires Split(row, SEP) == OrdFields(l)
    ensures OrdRowOk(row, l)
  {
    OrdNumbers(l);
    QuantityRoundTrip(l.quantity);
    QuantityRoundTrip(RoundMoney(l.maxAmount, l.currency));
  }

  predicate AllSystemText(lines: seq<OrdLine>) {
    forall j :: 0 <= j < |lines| ==> SystemText(lines[j])
  }

  lemma OrdTextSound(lines: seq<OrdLine>, j: nat)
    requires AllSystemText(lines) && j < |lines|
    ensures j + 1 < |OrdTexts(lines)| && EOL !in OrdTexts(lines)[j + 1] && OrdRowOk(OrdTexts(lines)[j + 1], lines[j])
  {
    OrdTextsAre(lines, j);
    OrdRowLine(lines[j]);
    OrdRowReads(OrdTexts(lines)[j + 1], lines[j]);
  }

  lemma OrdSplits(lines: seq<OrdLine>)
    requires AllSystemText(lines)
    ensures Split(BuildOrdCsv(lines), EOL) == OrdTexts(lines) + [""]
  {
    var texts := OrdTexts(lines);
    OrdTextsHeader(lines);
    OrdWords();
    WordsLine(ORD_COLUMNS);
    forall i | 0 <= i < |texts| ensures EOL !in texts[i] {
      if i > 0 { OrdTextSound(lines, i - 1); }
    }
    SplitEol(texts);
  }

  /** Whatever the clients' names, account numbers and instruments contain, an ORD file has the
      header, one line per order, and exactly eleven fields in each, of which the quantity and
      the amount read back. */
  lemma OrdOneRowPerOrder(lines: seq<OrdLine>)
    requires AllSystemText(lines)
    ensures var rows := Split(BuildOrdCsv(lines), EOL);
            && |rows| == |lines| + 2 && Split(rows[0], SEP) == ORD_COLUMNS && rows[|lines| + 1] == ""
            && forall j :: 0 <= j < |lines| ==> OrdRowOk(rows[j + 1], lines[j])
  {
    OrdSplits(lines);
    OrdTextsHeader(lines);
    OrdWords();
    WordsLine(ORD_COLUMNS);
    forall j | 0 <= j < |lines| ensures OrdRowOk((OrdTexts(lines) + [""])[j + 1], lines[j]) { OrdTextSound(lines, j); }
  }
}
