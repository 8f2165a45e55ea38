/** scripts/screening-backtest.ts: `escapeCsv` and `renderCsv`, against a parser for the
    format of section 2 of RFC 4180 that also accepts a bare LF as a line end. */
module Csv {
  import opened Options
  import opened Strings
  import Decimal

  // --- The printer ---

  datatype BacktestRow = BacktestRow(
    applicantId: string,
    tag: string,
    expectedOutcome: string,
    actualOutcome: string,
    isMatch: bool,
    expectedReason: string,
    terminalReason: string,
    reasonMatch: bool,
    timeToDecisionMs: int,
    statePath: string,
    ruleFlags: seq<string>)

  predicate IsSpecial(c: char) {
    c == '"' || c == ',' || c == '\n' || c == '\r'
  }

  predicate HasSpecial(s: string) {
    exists k :: 0 <= k < |s| && IsSpecial(s[k])
  }

  /** `field.replace(/"/g, '""')` */
  function DoubleQuotes(s: string): string {
    if s == "" then "" else (if s[0] == '"' then "\"\"" else [s[0]]) + DoubleQuotes(s[1..])
  }

  function EscapeCsv(field: string): string {
    if HasSpecial(field) then ['"'] + DoubleQuotes(field) + ['"'] else field
  }

  function PrintBool(b: bool): string {
    if b then "true" else "false"
  }

  function PrintInt(n: int): string {
    if n < 0 then ['-'] + Decimal.Print(-n) else Decimal.Print(n)
  }

  const HEADER := [
    "applicant_id", "tag", "expected_outcome", "actual_outcome", "match", "expected_reason", "actual_reason",
    "reason_match", "time_to_decision_ms", "state_path", "rule_flags"]

  /** The values that the printed line of a row stands for. */
  function Fields(row: BacktestRow): (fs: seq<string>)
    ensures |fs| == |HEADER|
  {
    [row.applicantId, row.tag, row.expectedOutcome, row.actualOutcome, PrintBool(row.isMatch), row.expectedReason,
     row.terminalReason, PrintBool(row.reasonMatch), PrintInt(row.timeToDecisionMs), row.statePath,
     Join(row.ruleFlags, "|")]
  }

  /** The printed line: booleans and the number go in unescaped. */
  function Line(row: BacktestRow): string {
    Join([EscapeCsv(row.applicantId), EscapeCsv(row.tag), EscapeCsv(row.expectedOutcome), EscapeCsv(row.actualOutcome),
          PrintBool(row.isMatch), EscapeCsv(row.expectedReason), EscapeCsv(row.terminalReason), PrintBool(row.reasonMatch),
          PrintInt(row.timeToDecisionMs), EscapeCsv(row.statePath), EscapeCsv(Join(row.ruleFlags, "|"))], ",")
  }

  function Lines(rows: seq<BacktestRow>): (ls: seq<string>)
    ensures |ls| == |rows|
  {
    seq(|rows|, i requires 0 <= i < |rows| => Line(rows[i]))
  }

  function Rendered(rows: seq<BacktestRow>): string {
    Join([Join(HEADER, ",")] + Lines(rows), "\n")
  }

  method RenderCsv(rows: seq<BacktestRow>) returns (text: string)
    ensures text == Rendered(rows)
  {
    hide Line, Join;
    var lines := [Join(HEADER, ",")];
    for i := 0 to |rows|
      invariant lines == [Join(HEADER, ",")] + Lines(rows[..i])
    {
      assert Lines(rows[..i + 1]) == Lines(rows[..i]) + [Line(rows[i])];
      lines := lines + [Line(rows[i])];
    }
    assert rows[..|rows|] == rows;
    text := Join(lines, "\n");
  }

  // --- The parser ---

  /** escaped = DQUOTE *(TEXTDATA / COMMA / CR / LF / 2DQUOTE) DQUOTE, after the first quote. */
  function ParseQuoted(s: string): (r: Option<(string, string)>)
    ensures r.Some? ==> |r.value.1| < |s|
  {
    if s == "" then None
    else if s[0] != '"' then
      (match ParseQuoted(s[1..]) case None => None case Some((v, rest)) => Some(([s[0]] + v, rest)))
    else if |s| > 1 && s[1] == '"' then
      (match ParseQuoted(s[2..]) case None => None case Some((v, rest)) => Some((['"'] + v, rest)))
    else Some(("", s[1..]))
  }

  /** non-escaped = *TEXTDATA */
  function ParsePlain(s: string): (r: (string, string))
    ensures |r.1| <= |s|
  {
    if s == "" || IsSpecial(s[0]) then ("", s)
    else
      var (v, rest) := ParsePlain(s[1..]);
      ([s[0]] + v, rest)
  }

  function ParseField(s: string): (r: Option<(string, string)>)
    ensures r.Some? ==> |r.value.1| <= |s|
  {
    if s != "" && s[0] == '"' then ParseQuoted(s[1..]) else Some(ParsePlain(s))
  }

  /** record = field *(COMMA field) */
  function ParseRecord(s: string): (r: Option<(seq<string>, string)>)
    ensures r.Some? ==> |r.value.1| <= |s|
    decreases |s|
  {
    match ParseField(s)
    case None => None
    case Some((v, rest)) =>
      if rest != "" && rest[0] == ',' then
        (match ParseRecord(rest[1..]) case None => None case Some((vs, rest')) => Some(([v] + vs, rest')))
      else Some(([v], rest))
  }

  /** What follows a line end, if the text begins with one. */
  function AfterLineEnd(s: string): (r: Option<string>)
    ensures r.Some? ==> |r.value| < |s|
  {
    if s != "" && s[0] == '\n' then Some(s[1..])
    else if |s| > 1 && s[0] == '\r' && s[1] == '\n' then Some(s[2..])
    else None
  }

  /** file = record *(line-end record) [line-end] */
  function ParseFile(s: string): Option<seq<seq<string>>>
    decreases |s|
  {
    match ParseRecord(s)
    case None => None
    case Some((vs, rest)) =>
      if rest == "" then Some([vs])
      else
        match AfterLineEnd(rest)
        case None => None
        case Some("") => Some([vs])
        case Some(more) => match ParseFile(more) case None => None case Some(records) => Some([vs] + records)
  }

  // --- Parsing what was printed ---

  /** Nothing that could still belong to a field. */
  predicate FieldEnds(rest: string) {
    rest == "" || rest[0] == ',' || rest[0] == '\n'
  }

  lemma {:induction false} QuotedBack(v: string, rest: string)
    requires FieldEnds(rest)
    ensures ParseQuoted(DoubleQuotes(v) + ['"'] + rest) == Some((v, rest))
  {
    var s := DoubleQuotes(v) + ['"'] + rest;
    if v == "" {
      assert s == ['"'] + rest;
    } else {
      var tail := DoubleQuotes(v[1..]) + ['"'] + rest;
      QuotedBack(v[1..], rest);
      assert v == [v[0]] + v[1..];
      if v[0] == '"' {
        assert s == "\"\"" + tail;
        assert s[2..] == tail;
      } else {
        assert s == [v[0]] + tail;
        assert s[1..] == tail;
      }
    }
  }

  lemma {:induction false} PlainBack(v: string, rest: string)
    requires !HasSpecial(v) && FieldEnds(rest)
    ensures ParsePlain(v + rest) == (v, rest)
  {
    if v == "" {
      assert v + rest == rest;
    } else {
      assert !IsSpecial(v[0]) && v == [v[0]] + v[1..];
      assert forall k | 0 <= k < |v[1..]| :: v[1..][k] == v[k + 1];
      PlainBack(v[1..], rest);
      assert (v + rest)[1..] == v[1..] + rest;
    }
  }

  /** A printed field reads back as itself, whatever characters it holds. */
  lemma FieldBack(v: string, rest: string)
    requires FieldEnds(rest)
    ensures ParseField(EscapeCsv(v) + rest) == Some((v, rest))
  {
    if HasSpecial(v) {
      QuotedBack(v, rest);
      assert EscapeCsv(v) + rest == ['"'] + (DoubleQuotes(v) + ['"'] + rest);
    } else {
      PlainBack(v, rest);
      if v != "" { assert !IsSpecial(v[0]); }
    }
  }

  function Escaped(vs: seq<string>): (es: seq<string>)
    ensures |es| == |vs|
  {
    seq(|vs|, i requires 0 <= i < |vs| => EscapeCsv(vs[i]))
  }

  predicate LineEnds(rest: string) {
    rest == "" || rest[0] == '\n'
  }

  lemma {:induction false} RecordBack(vs: seq<string>, rest: string)
    requires vs != [] && LineEnds(rest)
    ensures ParseRecord(Join(Escaped(vs), ",") + rest) == Some((vs, rest))
  {
    hide ParseField, EscapeCsv;
    var es := Escaped(vs);
    if |vs| == 1 {
      FieldBack(vs[0], rest);
      assert vs == [vs[0]];
    } else {
      var tail := Join(Escaped(vs[1..]), ",") + rest;
      assert es[1..] == Escaped(vs[1..]);
      assert Join(es, ",") + rest == EscapeCsv(vs[0]) + ([','] + tail);
      FieldBack(vs[0], [','] + tail);
      RecordBack(vs[1..], rest);
      assert ([','] + tail)[1..] == tail;
      assert vs == [vs[0]] + vs[1..];
    }
  }

  function Records(records: seq<seq<string>>): (ls: seq<string>)
    ensures |ls| == |records|
  {
    seq(|records|, i requires 0 <= i < |records| => Join(Escaped(records[i]), ","))
  }

  /** A record of two or more fields prints at least its comma. */
  lemma RecordNotEmpty(vs: seq<string>)
    requires |vs| >= 2
    ensures Join(Escaped(vs), ",") != ""
  {
  }

  lemma {:induction false} FileBack(records: seq<seq<string>>)
    requires records != [] && forall i | 0 <= i < |records| :: |records[i]| >= 2
    ensures ParseFile(Join(Records(records), "\n")) == Some(records)
  {
    var s := Join(Records(records), "\n");
    if |records| == 1 {
      RecordBack(records[0], "");
      assert s == Join(Escaped(records[0]), ",") + "";
      assert records == [records[0]];
    } else {
      var tail := Join(Records(records[1..]), "\n");
      assert Records(records)[1..] == Records(records[1..]);
      assert s == Join(Escaped(records[0]), ",") + (['\n'] + tail);
      RecordBack(records[0], ['\n'] + tail);
      assert forall i | 0 <= i < |records[1..]| :: records[1..][i] == records[i + 1];
      FileBack(records[1..]);
      assert (['\n'] + tail)[1..] == tail;
      FirstLine(records[1..]);
      assert records == [records[0]] + records[1..];
    }
  }

  lemma FirstLine(records: seq<seq<string>>)
    requires records != [] && |records[0]| >= 2
    ensures Join(Records(records), "\n") != ""
  {
    RecordNotEmpty(records[0]);
  }

  // --- The report ---

  lemma Unescaped(v: string)
    requires !HasSpecial(v)
    ensures EscapeCsv(v) == v
  {
  }

  lemma LineIsRecord(row: BacktestRow)
    ensures Line(row) == Join(Escaped(Fields(row)), ",")
  {
    Unescaped(PrintBool(row.isMatch));
    Unescaped(PrintBool(row.reasonMatch));
    Unescaped(PrintInt(row.timeToDecisionMs));
    var es := Escaped(Fields(row));
    assert es == [EscapeCsv(row.applicantId), EscapeCsv(row.tag), EscapeCsv(row.expectedOutcome), EscapeCsv(row.actualOutcome),
          PrintBool(row.isMatch), EscapeCsv(row.expectedReason), EscapeCsv(row.terminalReason), PrintBool(row.reasonMatch),
          PrintInt(row.timeToDecisionMs), EscapeCsv(row.statePath), EscapeCsv(Join(row.ruleFlags, "|"))];
  }

  lemma NamesPlain()
    ensures !HasSpecial("applicant_id") && !HasSpecial("tag") && !HasSpecial("expected_outcome")
    ensures !HasSpecial("actual_outcome") && !HasSpecial("match") && !HasSpecial("expected_reason")
    ensures !HasSpecial("actual_reason") && !HasSpecial("reason_match") && !HasSpecial("time_to_decision_ms")
    ensures !HasSpecial("state_path") && !HasSpecial("rule_flags")
  {
  }

  /** The column names need no quotes. */
  lemma HeaderIsRecord()
    ensures Escaped(HEADER) == HEADER
  {
    NamesPlain();
    hide HasSpecial;
    forall i | 0 <= i < |HEADER| ensures EscapeCsv(HEADER[i]) == HEADER[i] {
      assert !HasSpecial(HEADER[i]);
    }
  }

  function AllFields(rows: seq<BacktestRow>): (fs: seq<seq<string>>)
    ensures |fs| == |rows|
  {
    seq(|rows|, i requires 0 <= i < |rows| => Fields(rows[i]))
  }

  lemma ReportRecords(header: seq<string>, rows: seq<BacktestRow>)
    requires Escaped(header) == header
    ensures Records([header] + AllFields(rows)) == [Join(header, ",")] + Lines(rows)
  {
    hide Line, Join, EscapeCsv, Fields;
    forall i | 0 <= i < |rows| ensures Line(rows[i]) == Join(Escaped(Fields(rows[i])), ",") { LineIsRecord(rows[i]); }
  }

  lemma ReportWide(header: seq<string>, rows: seq<BacktestRow>)
    requires |header| == |HEADER|
    ensures forall i | 0 <= i <= |rows| :: |([header] + AllFields(rows))[i]| >= 2
  {
    hide Fields;
  }

  /** A field is quoted exactly if it holds a quote, a comma or a line break. */
  lemma QuotedExactly(field: string)
    ensures EscapeCsv(field) == field <==> '"' !in field && ',' !in field && '\n' !in field && '\r' !in field
    ensures EscapeCsv(field) != field ==> EscapeCsv(field)[0] == '"'
  {
    if HasSpecial(field) {
      DoubledLonger(field);
    }
  }

  lemma {:induction false} DoubledLonger(s: string)
    ensures |DoubleQuotes(s)| >= |s|
  {
    if s != "" {
      DoubledLonger(s[1..]);
    }
  }

  /** The eleven columns of a row as texts. */
  ghost predicate ColumnsAre(columns: seq<string>, row: BacktestRow) {
    && |columns| == 11
    && columns[0] == row.applicantId && columns[1] == row.tag && columns[2] == row.expectedOutcome && columns[3] == row.actualOutcome
    && columns[4] == (if row.isMatch then "true" else "false") && columns[5] == row.expectedReason
    && columns[6] == row.terminalReason && columns[7] == (if row.reasonMatch then "true" else "false")
    && Signed(columns[8], row.timeToDecisionMs) && columns[9] == row.statePath && columns[10] == Join(row.ruleFlags, "|")
  }

  /** The text denotes the number, with a minus sign exactly if it is negative and no needless zero. */
  ghost predicate Signed(text: string, n: int) {
    if n < 0 then text != "" && text[0] == '-' && Unsigned(text[1..], -n) else Unsigned(text, n)
  }

  ghost predicate Unsigned(text: string, n: nat) {
    text != "" && Decimal.AllDigits(text) && Decimal.Value(text) == n && (|text| > 1 ==> text[0] != '0')
  }

  lemma FieldsAre(row: BacktestRow)
    ensures ColumnsAre(Fields(row), row)
  {
    SignedPrint(row.timeToDecisionMs);
    hide Signed, PrintInt, Join;
  }

  lemma SignedPrint(n: int)
    ensures Signed(PrintInt(n), n)
  {
    Decimal.ValuePrint(if n < 0 then -n else n);
    Decimal.NoLeadingZero(if n < 0 then -n else n);
    hide Decimal.Print, Decimal.Value;
    assert n < 0 ==> (['-'] + Decimal.Print(-n))[1..] == Decimal.Print(-n);
  }

  /** Parsing the report gives back the header and the field values of every row, for any
      strings in the rows: commas, quotes and line breaks included. */
  lemma ReportReadsBack(rows: seq<BacktestRow>)
    ensures ParseFile(Rendered(rows)) == Some([HEADER] + AllFields(rows))
    ensures forall i | 0 <= i < |rows| :: ColumnsAre(AllFields(rows)[i], rows[i])
    ensures HEADER == ["applicant_id", "tag", "expected_outcome", "actual_outcome", "match", "expected_reason", "actual_reason",
                       "reason_match", "time_to_decision_ms", "state_path", "rule_flags"]
  {
    ColumnsOfAll(rows);
    hide Join, ParseFile, AllFields, Lines, Records, Escaped;
    HeaderIsRecord();
    ReportRecords(HEADER, rows);
    ReportWide(HEADER, rows);
    FileBack([HEADER] + AllFields(rows));
  }

  lemma ColumnsOfAll(rows: seq<BacktestRow>)
    ensures forall i | 0 <= i < |rows| :: ColumnsAre(AllFields(rows)[i], rows[i])
  {
    hide ColumnsAre, Fields;
    forall i | 0 <= i < |rows| ensures ColumnsAre(AllFields(rows)[i], rows[i]) {
      FieldsAre(rows[i]);
    }
  }

  /** So two reports are equal only if all their field values are. */
  lemma ReportInjective(a: seq<BacktestRow>, b: seq<BacktestRow>)
    requires Rendered(a) == Rendered(b)
    ensures AllFields(a) == AllFields(b)
  {
    ReportReadsBack(a);
    ReportReadsBack(b);
    var ra, rb := [HEADER] + AllFields(a), [HEADER] + AllFields(b);
    assert ra[1..] == AllFields(a) && rb[1..] == AllFields(b);
  }
}
