/**
 * The dataset overview the chat backend attaches to its first answer
 * (`analyzeCSV` in supabase/functions/chat-with-eurika/index.ts) and the rule
 * by which the handler attaches it.
 *
 * `!isNaN(Number(v))` is a parameter `isNumber`; the OpenAI call is an input
 * (`OpenAIReply`).
 */
module ChatWithEurika {
  import opened Wrappers
  import opened Text
  import opened Seqs

  /** `Array.from(uniqueValues).slice(0, 3)`. */
  const SampleValueLimit: nat := 3
  /** A non-numeric column with fewer than 10 distinct values is categorical. */
  const CategoricalLimit: nat := 10

  datatype ColumnType = Numeric | Categorical | FreeText

  datatype ColumnAnalysis = ColumnAnalysis(
    name: string,
    kind: ColumnType,
    uniqueCount: nat,
    missingCount: nat,
    sampleValues: seq<string>)

  datatype Analysis = Analysis(
    summary: string,
    columnAnalysis: seq<ColumnAnalysis>,
    rowCount: nat,
    columnCount: nat)

  // ---------------------------------------------------------------------------
  // Columns

  /** `lines[0].split(',').map(h => h.trim())`: no quotes are removed here. */
  function Headers(lines: seq<string>): (headers: seq<string>)
    requires |lines| >= 1
    ensures |headers| >= 1
    ensures forall i :: 0 <= i < |headers| ==> IsTrimmed(headers[i])
  {
    var parts := Split(lines[0], ',');
    seq(|parts|, i requires 0 <= i < |parts| => Trim(parts[i]))
  }

  /** `row.split(',')[idx]?.trim()`: `None` when the row has no field at `idx`. */
  function CellAt(row: string, idx: nat): Option<string> {
    var parts := Split(row, ',');
    if idx < |parts| then Some(Trim(parts[idx])) else None
  }

  /** `rows.map(row => row.split(',')[idx]?.trim()).filter(v => v)`: the present, non-empty cells. */
  function PresentValues(rows: seq<string>, idx: nat): (values: seq<string>)
    ensures |values| <= |rows|
  {
    if |rows| == 0 then []
    else
      var rest := PresentValues(rows[1..], idx);
      match CellAt(rows[0], idx)
      case Some(v) => if v != "" then [v] + rest else rest
      case None => rest
  }

  /** A value is present in a column exactly when some row holds it, non-empty, at that position. */
  lemma {:induction false} PresentValuesMembers(rows: seq<string>, idx: nat)
    ensures forall v :: v in PresentValues(rows, idx) <==>
              v != "" && exists r :: r in rows && CellAt(r, idx) == Some(v)
  {
    if |rows| > 0 {
      PresentValuesMembers(rows[1..], idx);
      assert forall r :: r in rows <==> r == rows[0] || r in rows[1..];
    }
  }

  /** `numericValues.length > values.length * 0.8`, in exact arithmetic, then the distinct-value cut. */
  function TypeOf(values: seq<string>, isNumber: string -> bool): ColumnType {
    if 5 * |Filter(values, isNumber)| > 4 * |values| then Numeric
    else if |Distinct(values)| < CategoricalLimit then Categorical
    else FreeText
  }

  /** The entry `columnAnalysis` holds for the header at `idx`. */
  function AnalyzeColumn(header: string, idx: nat, rows: seq<string>, isNumber: string -> bool): ColumnAnalysis {
    var values := PresentValues(rows, idx);
    var unique := Distinct(values);
    ColumnAnalysis(
      header,
      TypeOf(values, isNumber),
      |unique|,
      |rows| - |values|,
      unique[..if |unique| < SampleValueLimit then |unique| else SampleValueLimit])
  }

  /** `headers.map((header, idx) => ...)`: one entry per header, in header order. */
  function AnalyzeColumns(headers: seq<string>, rows: seq<string>, isNumber: string -> bool): (cols: seq<ColumnAnalysis>)
    ensures |cols| == |headers|
    ensures forall i :: 0 <= i < |cols| ==> cols[i] == AnalyzeColumn(headers[i], i, rows, isNumber)
  {
    seq(|headers|, i requires 0 <= i < |headers| => AnalyzeColumn(headers[i], i, rows, isNumber))
  }

  /**
   * What an entry says about its column: the missing count is the number of
   * rows without a value, the type follows the 80% rule and then the
   * ten-value cut, the unique count is the number of distinct values, and the
   * samples are the first (at most) three distinct values in order of first
   * appearance.
   */
  lemma ColumnFacts(header: string, idx: nat, rows: seq<string>, isNumber: string -> bool)
    ensures var c := AnalyzeColumn(header, idx, rows, isNumber);
            var values := PresentValues(rows, idx);
            var numeric := 5 * |Filter(values, isNumber)| > 4 * |values|;
            && c.name == header
            && c.missingCount + |values| == |rows|
            && c.missingCount <= |rows|
            && (c.kind == Numeric <==> numeric)
            && (c.kind == Categorical <==> !numeric && |Elements(values)| < CategoricalLimit)
            && (c.kind == FreeText <==> !numeric && |Elements(values)| >= CategoricalLimit)
            && c.uniqueCount == |Elements(values)| <= |values|
            && (|values| == 0 ==> c.kind == Categorical && c.missingCount == |rows|)
  {
    DistinctCard(PresentValues(rows, idx));
  }

  /** The samples: at most three distinct values of the column, the ones that appear first, in that order. */
  lemma SampleFacts(header: string, idx: nat, rows: seq<string>, isNumber: string -> bool)
    ensures var c := AnalyzeColumn(header, idx, rows, isNumber);
            var values := PresentValues(rows, idx);
            && |c.sampleValues| <= SampleValueLimit
            && |c.sampleValues| == (if |Elements(values)| < SampleValueLimit then |Elements(values)| else SampleValueLimit)
            && NoDuplicates(c.sampleValues)
            && (forall v :: v in c.sampleValues ==> v in values)
            && (forall i, j :: 0 <= i < j < |c.sampleValues| ==>
                  FirstIndex(values, c.sampleValues[i]) < FirstIndex(values, c.sampleValues[j]))
            && (forall i, v :: 0 <= i < |c.sampleValues| && v in values && v !in c.sampleValues ==>
                  FirstIndex(values, c.sampleValues[i]) < FirstIndex(values, v))
  {
    var values := PresentValues(rows, idx);
    var unique := Distinct(values);
    DistinctCard(values);
    DistinctPrefix(values, if |unique| < SampleValueLimit then |unique| else SampleValueLimit);
  }

  // ---------------------------------------------------------------------------
  // Summary lines

  /** `📊 I see you have ${rows.length} rows and ${headers.length} columns!` */
  function RowsLine(rowCount: nat, columnCount: nat): string {
    "\U{1F4CA} I see you have " + NatToString(rowCount) + " rows and " + NatToString(columnCount) + " columns!"
  }

  /** `🔢 Found ${n} numeric columns: ${names.join(', ')}` */
  function NumericLine(names: seq<string>): string {
    "\U{1F522} Found " + NatToString(|names|) + " numeric columns: " + Join(names, ", ")
  }

  /** `🏷️ Found ${n} categorical columns: ${names.join(', ')}` */
  function CategoricalLine(names: seq<string>): string {
    "\U{1F3F7}\U{FE0F} Found " + NatToString(|names|) + " categorical columns: " + Join(names, ", ")
  }

  /** `${c.name} (${c.missingCount})` */
  function MissingEntry(c: ColumnAnalysis): string {
    c.name + " (" + NatToString(c.missingCount) + ")"
  }

  /** `⚠️ Missing values detected in: ${entries.join(', ')}` */
  function MissingLine(cols: seq<ColumnAnalysis>): string {
    "\U{26A0}\U{FE0F} Missing values detected in: "
      + Join(seq(|cols|, i requires 0 <= i < |cols| => MissingEntry(cols[i])), ", ")
  }

  /** `columnAnalysis.filter(c => c.type === kind).map(c => c.name)`. */
  function NamesOfKind(cols: seq<ColumnAnalysis>, kind: ColumnType): (names: seq<string>)
    ensures |names| <= |cols|
  {
    if |cols| == 0 then []
    else
      var rest := NamesOfKind(cols[1..], kind);
      if cols[0].kind == kind then [cols[0].name] + rest else rest
  }

  /** `c => c.type === kind`. */
  function IsKind(kind: ColumnType): ColumnAnalysis -> bool {
    (c: ColumnAnalysis) => c.kind == kind
  }

  /** The names are those of the columns of that kind, one each, in column order. */
  lemma {:induction false} NamesOfKindInOrder(cols: seq<ColumnAnalysis>, kind: ColumnType)
    ensures var ks := Filter(cols, IsKind(kind));
            && |NamesOfKind(cols, kind)| == |ks|
            && forall i :: 0 <= i < |ks| ==> NamesOfKind(cols, kind)[i] == ks[i].name
  {
    if |cols| > 0 {
      NamesOfKindInOrder(cols[1..], kind);
    }
  }

  /** There are names of a kind exactly when some column has that kind. */
  lemma NamesOfKindNonEmpty(cols: seq<ColumnAnalysis>, kind: ColumnType)
    ensures |NamesOfKind(cols, kind)| > 0 <==> exists i :: 0 <= i < |cols| && cols[i].kind == kind
  {
    NamesOfKindInOrder(cols, kind);
    var ks := Filter(cols, IsKind(kind));
    if i :| 0 <= i < |cols| && cols[i].kind == kind {
      assert cols[i] in ks;
    }
    if |ks| > 0 {
      assert ks[0] in ks;
    }
  }

  /** `c => c.missingCount > 0`. */
  function HasMissing(c: ColumnAnalysis): bool {
    c.missingCount > 0
  }

  /** `columnAnalysis.filter(c => c.missingCount > 0)`: the columns with missing values, in column order. */
  function MissingColumns(cols: seq<ColumnAnalysis>): (missing: seq<ColumnAnalysis>)
    ensures forall c :: c in missing <==> c in cols && c.missingCount > 0
    ensures IsSubsequence(missing, cols)
  {
    FilterIsSubsequence(cols, HasMissing);
    Filter(cols, HasMissing)
  }

  /** Some column is listed as missing values exactly when some column has a missing value. */
  lemma MissingColumnsNonEmpty(cols: seq<ColumnAnalysis>)
    ensures |MissingColumns(cols)| > 0 <==> exists i :: 0 <= i < |cols| && cols[i].missingCount > 0
  {
    var missing := MissingColumns(cols);
    if i :| 0 <= i < |cols| && cols[i].missingCount > 0 {
      assert cols[i] in missing;
    }
    if |missing| > 0 {
      assert missing[0] in missing;
    }
  }

  /** `line` in front of `rest` when `present`, otherwise `rest`. */
  function OptionalLine(present: bool, line: string, rest: seq<string>): (lines: seq<string>)
    ensures |lines| == |rest| + (if present then 1 else 0)
  {
    if present then [line] + rest else rest
  }

  /** The summary lines `analyzeCSV` pushes, as one expression. */
  function SummaryLines(rowCount: nat, columnCount: nat, cols: seq<ColumnAnalysis>): seq<string> {
    var numeric := NamesOfKind(cols, Numeric);
    var categorical := NamesOfKind(cols, Categorical);
    var missing := MissingColumns(cols);
    [RowsLine(rowCount, columnCount)]
      + OptionalLine(|numeric| > 0, NumericLine(numeric),
          OptionalLine(|categorical| > 0, CategoricalLine(categorical),
            OptionalLine(|missing| > 0, MissingLine(missing), [])))
  }

  /** The `insights` array, built by conditional pushes. */
  method Insights(rowCount: nat, columnCount: nat, cols: seq<ColumnAnalysis>) returns (insights: seq<string>)
    ensures insights == SummaryLines(rowCount, columnCount, cols)
  {
    var numeric := NamesOfKind(cols, Numeric);
    var categorical := NamesOfKind(cols, Categorical);
    var missing := MissingColumns(cols);
    ghost var tail := OptionalLine(|missing| > 0, MissingLine(missing), []);
    ghost var middle := OptionalLine(|categorical| > 0, CategoricalLine(categorical), tail);
    ghost var after := OptionalLine(|numeric| > 0, NumericLine(numeric), middle);
    insights := [RowsLine(rowCount, columnCount)];
    if |numeric| > 0 {
      insights := insights + [NumericLine(numeric)];
    }
    assert insights + middle == [RowsLine(rowCount, columnCount)] + after;
    if |categorical| > 0 {
      insights := insights + [CategoricalLine(categorical)];
    }
    assert insights + tail == [RowsLine(rowCount, columnCount)] + after;
    if |missing| > 0 {
      insights := insights + [MissingLine(missing)];
    }
    assert insights == [RowsLine(rowCount, columnCount)] + after;
  }

  /** Which kind of summary line a line is, read from its leading symbol: 0 to 3, or 4 for any other line. */
  function LineRank(line: string): nat {
    if |line| == 0 then 4
    else if line[0] == '\U{1F4CA}' then 0
    else if line[0] == '\U{1F522}' then 1
    else if line[0] == '\U{1F3F7}' then 2
    else if line[0] == '\U{26A0}' then 3
    else 4
  }

  /** The kinds of the lines, in order. */
  function Ranks(lines: seq<string>): (ranks: seq<nat>)
    ensures |ranks| == |lines|
  {
    if |lines| == 0 then [] else [LineRank(lines[0])] + Ranks(lines[1..])
  }

  /** Each summary line is recognised by its leading symbol. */
  lemma LineRanks(rowCount: nat, columnCount: nat, numeric: seq<string>, categorical: seq<string>, missing: seq<ColumnAnalysis>)
    ensures LineRank(RowsLine(rowCount, columnCount)) == 0
    ensures LineRank(NumericLine(numeric)) == 1
    ensures LineRank(CategoricalLine(categorical)) == 2
    ensures LineRank(MissingLine(missing)) == 3
  {
  }

  /** A present line puts its kind in front of the kinds of the rest. */
  lemma OptionalLineRanks(present: bool, line: string, rest: seq<string>)
    ensures Ranks(OptionalLine(present, line, rest)) == (if present then [LineRank(line)] else []) + Ranks(rest)
  {
    if present {
      assert ([line] + rest)[1..] == rest;
    }
  }

  /**
   * The summary always starts with the rows-and-columns line; the numeric,
   * categorical and missing-value lines follow in that order, each present
   * exactly when its list of columns is non-empty.
   */
  lemma SummaryShape(rowCount: nat, columnCount: nat, cols: seq<ColumnAnalysis>)
    ensures Ranks(SummaryLines(rowCount, columnCount, cols))
              == [0]
              + ((if |NamesOfKind(cols, Numeric)| > 0 then [1] else [])
              + ((if |NamesOfKind(cols, Categorical)| > 0 then [2] else [])
              + (if |MissingColumns(cols)| > 0 then [3] else [])))
  {
    var numeric := NamesOfKind(cols, Numeric);
    var categorical := NamesOfKind(cols, Categorical);
    var missing := MissingColumns(cols);
    var tail := OptionalLine(|missing| > 0, MissingLine(missing), []);
    var middle := OptionalLine(|categorical| > 0, CategoricalLine(categorical), tail);
    var after := OptionalLine(|numeric| > 0, NumericLine(numeric), middle);
    LineRanks(rowCount, columnCount, numeric, categorical, missing);
    OptionalLineRanks(|missing| > 0, MissingLine(missing), []);
    assert Ranks(tail) == if |missing| > 0 then [3] else [];
    OptionalLineRanks(|categorical| > 0, CategoricalLine(categorical), tail);
    OptionalLineRanks(|numeric| > 0, NumericLine(numeric), middle);
    assert ([RowsLine(rowCount, columnCount)] + after)[1..] == after;
  }

  /** The summary opens with the rows-and-columns line. */
  lemma SummaryFirstLine(rowCount: nat, columnCount: nat, cols: seq<ColumnAnalysis>)
    ensures |SummaryLines(rowCount, columnCount, cols)| >= 1
    ensures SummaryLines(rowCount, columnCount, cols)[0] == RowsLine(rowCount, columnCount)
  {
  }

  /** A decimal rendering holds no line break. */
  lemma NumberHasNoBreak(n: nat)
    ensures '\n' !in NatToString(n)
  {
    var r := NatToString(n);
    assert forall i :: 0 <= i < |r| ==> IsDigit(r[i]);
  }

  /** No string in the list holds a line break. */
  predicate NoBreaks(lines: seq<string>) {
    forall i :: 0 <= i < |lines| ==> '\n' !in lines[i]
  }

  /** The kind-filtered names are names of the given columns. */
  lemma {:induction false} NamesHaveNoBreak(cols: seq<ColumnAnalysis>, kind: ColumnType)
    requires forall i :: 0 <= i < |cols| ==> '\n' !in cols[i].name
    ensures NoBreaks(NamesOfKind(cols, kind))
  {
    if |cols| > 0 {
      NamesHaveNoBreak(cols[1..], kind);
    }
  }

  /** The rows-and-columns line holds no line break. */
  lemma RowsLineHasNoBreak(rowCount: nat, columnCount: nat)
    ensures '\n' !in RowsLine(rowCount, columnCount)
  {
    NumberHasNoBreak(rowCount);
    NumberHasNoBreak(columnCount);
  }

  /** A list-of-names line holds no line break when the names hold none. */
  lemma NamesLinesHaveNoBreak(names: seq<string>)
    requires NoBreaks(names)
    ensures '\n' !in NumericLine(names)
    ensures '\n' !in CategoricalLine(names)
  {
    var count := NatToString(|names|);
    var joined := Join(names, ", ");
    NumberHasNoBreak(|names|);
    JoinFree(names, ", ", '\n');
    NoBreakInLine("\U{1F522} Found ", count, " numeric columns: ", joined);
    NoBreakInLine("\U{1F3F7}\U{FE0F} Found ", count, " categorical columns: ", joined);
  }

  /** A line made of four pieces without line breaks has none. */
  lemma NoBreakInLine(a: string, b: string, c: string, d: string)
    requires '\n' !in a && '\n' !in b && '\n' !in c && '\n' !in d
    ensures '\n' !in a + b + c + d
  {
  }

  /** The missing-values line holds no line break when the column names hold none. */
  lemma MissingLineHasNoBreak(missing: seq<ColumnAnalysis>)
    requires forall i :: 0 <= i < |missing| ==> '\n' !in missing[i].name
    ensures '\n' !in MissingLine(missing)
  {
    var entries := seq(|missing|, i requires 0 <= i < |missing| => MissingEntry(missing[i]));
    forall i | 0 <= i < |missing| ensures '\n' !in entries[i] {
      NumberHasNoBreak(missing[i].missingCount);
    }
    JoinFree(entries, ", ", '\n');
  }

  /** Adding a line without a break keeps a list free of breaks. */
  lemma OptionalLineNoBreaks(present: bool, line: string, rest: seq<string>)
    requires '\n' !in line && NoBreaks(rest)
    ensures NoBreaks(OptionalLine(present, line, rest))
  {
  }

  /** Summary lines hold no line break when the column names hold none. */
  lemma SummaryLinesHaveNoBreak(rowCount: nat, columnCount: nat, cols: seq<ColumnAnalysis>)
    requires forall i :: 0 <= i < |cols| ==> '\n' !in cols[i].name
    ensures NoBreaks(SummaryLines(rowCount, columnCount, cols))
  {
    var numeric := NamesOfKind(cols, Numeric);
    var categorical := NamesOfKind(cols, Categorical);
    var missing := MissingColumns(cols);
    var tail := OptionalLine(|missing| > 0, MissingLine(missing), []);
    var middle := OptionalLine(|categorical| > 0, CategoricalLine(categorical), tail);
    var after := OptionalLine(|numeric| > 0, NumericLine(numeric), middle);
    RowsLineHasNoBreak(rowCount, columnCount);
    NamesHaveNoBreak(cols, Numeric);
    NamesHaveNoBreak(cols, Categorical);
    NamesLinesHaveNoBreak(numeric);
    NamesLinesHaveNoBreak(categorical);
    MissingLineHasNoBreak(missing);
    OptionalLineNoBreaks(|missing| > 0, MissingLine(missing), []);
    OptionalLineNoBreaks(|categorical| > 0, CategoricalLine(categorical), tail);
    OptionalLineNoBreaks(|numeric| > 0, NumericLine(numeric), middle);
    OptionalLineNoBreaks(true, RowsLine(rowCount, columnCount), after);
  }

  // ---------------------------------------------------------------------------
  // The analysis

  /** The analysis `analyzeCSV` returns for a text. */
  function AnalysisOf(csvContent: string, isNumber: string -> bool): Analysis {
    var lines := Lines(csvContent);
    var headers := Headers(lines);
    var rows := lines[1..];
    var cols := AnalyzeColumns(headers, rows, isNumber);
    Analysis(Join(SummaryLines(|rows|, |headers|, cols), "\n"), cols, |rows|, |headers|)
  }

  /** `analyzeCSV`: the column entries, the insight lines joined by line breaks, and the counts. */
  method AnalyzeCSV(csvContent: string, isNumber: string -> bool) returns (analysis: Analysis)
    ensures analysis == AnalysisOf(csvContent, isNumber)
  {
    var lines := Lines(csvContent);
    var headers := Headers(lines);
    var rows := lines[1..];
    var columnAnalysis := AnalyzeColumns(headers, rows, isNumber);
    var insights := Insights(|rows|, |headers|, columnAnalysis);
    analysis := Analysis(Join(insights, "\n"), columnAnalysis, |rows|, |headers|);
  }

  /** Headers come from one line, so they hold no line break. */
  lemma HeadersHaveNoBreak(lines: seq<string>)
    requires |lines| >= 1 && '\n' !in lines[0]
    ensures NoBreaks(Headers(lines))
  {
    var parts := Split(lines[0], ',');
    SplitChars(lines[0], ',');
    forall i | 0 <= i < |parts| ensures '\n' !in Trim(parts[i]) {
      TrimChars(parts[i]);
    }
  }

  /**
   * The counts: `rowCount` is the number of lines after the first and
   * `columnCount` the number of headers; there is one entry per header, in
   * header order, each describing the column at the header's position.
   */
  lemma AnalysisCounts(csvContent: string, isNumber: string -> bool)
    ensures var a := AnalysisOf(csvContent, isNumber);
            var lines := Lines(csvContent);
            var headers := Headers(lines);
            && a.rowCount == |lines| - 1
            && a.columnCount == |headers| == |a.columnAnalysis|
            && (forall i :: 0 <= i < |headers| ==>
                  a.columnAnalysis[i] == AnalyzeColumn(headers[i], i, lines[1..], isNumber)
                  && a.columnAnalysis[i].name == headers[i])
  {
  }

  /** Cutting the joined summary at its line breaks gives back the lines, when no column name holds a break. */
  lemma SummaryLinesRoundTrip(rowCount: nat, columnCount: nat, cols: seq<ColumnAnalysis>)
    requires forall i :: 0 <= i < |cols| ==> '\n' !in cols[i].name
    ensures Split(Join(SummaryLines(rowCount, columnCount, cols), "\n"), '\n') == SummaryLines(rowCount, columnCount, cols)
  {
    SummaryLinesHaveNoBreak(rowCount, columnCount, cols);
    SplitJoin(SummaryLines(rowCount, columnCount, cols), '\n');
  }

  /** Column entries carry the header names, so they hold no line break when the headers hold none. */
  lemma ColumnNamesHaveNoBreak(headers: seq<string>, rows: seq<string>, isNumber: string -> bool)
    requires NoBreaks(headers)
    ensures forall i :: 0 <= i < |AnalyzeColumns(headers, rows, isNumber)| ==>
              '\n' !in AnalyzeColumns(headers, rows, isNumber)[i].name
  {
    var cols := AnalyzeColumns(headers, rows, isNumber);
    forall i | 0 <= i < |cols| ensures '\n' !in cols[i].name {
      assert cols[i].name == headers[i];
    }
  }

  /** The column names of an analysis hold no line break. */
  lemma AnalysisNamesHaveNoBreak(csvContent: string, isNumber: string -> bool)
    ensures var cols := AnalysisOf(csvContent, isNumber).columnAnalysis;
            forall i :: 0 <= i < |cols| ==> '\n' !in cols[i].name
  {
    var lines := Lines(csvContent);
    HeadersHaveNoBreak(lines);
    ColumnNamesHaveNoBreak(Headers(lines), lines[1..], isNumber);
  }

  /** The summary is the insight lines joined by line breaks. */
  lemma AnalysisSummary(csvContent: string, isNumber: string -> bool)
    ensures var a := AnalysisOf(csvContent, isNumber);
            a.summary == Join(SummaryLines(a.rowCount, a.columnCount, a.columnAnalysis), "\n")
  {
  }

  /** Cutting the summary at its line breaks gives back exactly the insight lines. */
  lemma SummaryRoundTrip(csvContent: string, isNumber: string -> bool)
    ensures var a := AnalysisOf(csvContent, isNumber);
            Split(a.summary, '\n') == SummaryLines(a.rowCount, a.columnCount, a.columnAnalysis)
  {
    var a := AnalysisOf(csvContent, isNumber);
    AnalysisNamesHaveNoBreak(csvContent, isNumber);
    AnalysisSummary(csvContent, isNumber);
    SummaryLinesRoundTrip(a.rowCount, a.columnCount, a.columnAnalysis);
  }

  // ---------------------------------------------------------------------------
  // The handler

  datatype Message = Message(role: string, content: string)

  /** The parsed request body: `{ messages, csvContent, isFirstMessage }`. */
  datatype ChatRequest = ChatRequest(messages: seq<Message>, csvContent: Option<string>, isFirstMessage: bool)

  /** A body as `json()` reads it: a value, or the message it rejects with. */
  datatype Json<T> = Parsed(value: T) | Malformed(error: string)

  /** What the completion call gives back: a response with its status and body, or an exception. */
  datatype OpenAIReply = Responded(status: int, body: Json<string>) | Threw(error: string)

  /** The error the handler reports when no API key is set. */
  const KeyMissingError := "OpenAI API key is not configured"
  /** The error the handler reports when the completion call answers with a failure status. */
  const UpstreamError := "Failed to get response from OpenAI"

  datatype ChatResponse =
    | Preflight
    | ErrorResponse(status: int, error: string)
    | Completion(data: string, analysis: Option<Analysis>)

  /** `if (csvContent)`: a present, non-empty text. */
  predicate HasCsv(req: ChatRequest) {
    req.csvContent.Some? && req.csvContent.value != ""
  }

  /** The fixed pieces of the dataset message, in order. */
  const DatasetHeading := "\n\U{1F4C1} **DATASET AVAILABLE:**\n\nYou have access to a CSV file with "
  const DatasetRows := " rows and "
  const DatasetColumns := " columns.\n\n**Columns:** "
  const DatasetDataHeading := "\n\n**Full CSV Data:**\n```csv\n"
  const DatasetOutro :=
    "\n```\n\nIMPORTANT: You have the complete dataset above. Use it to calculate, analyze, and answer all user"
    + " questions. Never ask the user to provide the data - you already have it!\n"

  /** The part of the dataset message that precedes the CSV text: the counts and the column names. */
  function DatasetIntro(a: Analysis): string {
    var names := seq(|a.columnAnalysis|, i requires 0 <= i < |a.columnAnalysis| => a.columnAnalysis[i].name);
    DatasetHeading + NatToString(a.rowCount) + DatasetRows + NatToString(a.columnCount) + DatasetColumns
      + Join(names, ", ") + DatasetDataHeading
  }

  /** The system message that gives the model the dataset: its counts, its column names and the whole text. */
  function DatasetContext(a: Analysis, csvContent: string): string {
    DatasetIntro(a) + csvContent + DatasetOutro
  }

  /** The whole CSV text is part of the dataset message. */
  lemma DatasetContextHoldsCsv(a: Analysis, csvContent: string)
    ensures OccursAt(DatasetContext(a, csvContent), csvContent, |DatasetIntro(a)|)
  {
    var ctx := DatasetContext(a, csvContent);
    var k := |DatasetIntro(a)|;
    assert ctx[k..k + |csvContent|] == csvContent;
  }

  /**
   * The messages sent to the completion call: the personality prompt, then,
   * whenever the request carries a CSV text (first message or not), the
   * dataset message, then the conversation as received.
   */
  function OutgoingMessages(systemPrompt: string, req: ChatRequest, isNumber: string -> bool): (out: seq<Message>)
    ensures |out| == |req.messages| + (if HasCsv(req) then 2 else 1)
    ensures out[0] == Message("system", systemPrompt)
    ensures out[|out| - |req.messages|..] == req.messages
    ensures HasCsv(req) ==>
              out[1] == Message("system", DatasetContext(AnalysisOf(req.csvContent.value, isNumber), req.csvContent.value))
  {
    if HasCsv(req) then
      var csv := req.csvContent.value;
      [Message("system", systemPrompt), Message("system", DatasetContext(AnalysisOf(csv, isNumber), csv))] + req.messages
    else
      [Message("system", systemPrompt)] + req.messages
  }

  /** The analysis the handler returns: computed for a CSV text, and only returned on the first message. */
  function AttachedAnalysis(req: ChatRequest, isNumber: string -> bool): (a: Option<Analysis>)
    ensures a.Some? <==> HasCsv(req) && req.isFirstMessage
    ensures a.Some? ==> a.value == AnalysisOf(req.csvContent.value, isNumber)
  {
    if HasCsv(req) && req.isFirstMessage then Some(AnalysisOf(req.csvContent.value, isNumber)) else None
  }

  /**
   * The chat handler: preflight, body parsing, key check, the completion call
   * (`complete`, given the messages it is sent) and the reply.
   */
  function HandleChat(
    isPreflight: bool, body: Json<ChatRequest>, apiKeyConfigured: bool, systemPrompt: string,
    complete: seq<Message> -> OpenAIReply, isNumber: string -> bool
  ): (r: ChatResponse)
    ensures isPreflight <==> r.Preflight?
    ensures !isPreflight && body.Malformed? ==> r == ErrorResponse(500, body.error)
    ensures !isPreflight && body.Parsed? && !apiKeyConfigured ==>
              r == ErrorResponse(500, KeyMissingError)
    ensures r.Completion? <==>
              && !isPreflight && body.Parsed? && apiKeyConfigured
              && var reply := complete(OutgoingMessages(systemPrompt, body.value, isNumber));
                 reply.Responded? && 200 <= reply.status <= 299 && reply.body.Parsed?
    ensures r.Completion? ==>
              && r.data == complete(OutgoingMessages(systemPrompt, body.value, isNumber)).body.value
              && r.analysis == AttachedAnalysis(body.value, isNumber)
    ensures r.ErrorResponse? && r.status != 500 ==>
              r.error == UpstreamError && !(200 <= r.status <= 299)
    ensures !isPreflight && body.Parsed? && apiKeyConfigured ==>
              var reply := complete(OutgoingMessages(systemPrompt, body.value, isNumber));
              && (reply.Responded? && !(200 <= reply.status <= 299) ==> r == ErrorResponse(reply.status, UpstreamError))
              && (reply.Threw? ==> r == ErrorResponse(500, reply.error))
              && (reply.Responded? && 200 <= reply.status <= 299 && reply.body.Malformed? ==>
                    r == ErrorResponse(500, reply.body.error))
  {
    if isPreflight then Preflight
    else if body.Malformed? then ErrorResponse(500, body.error)
    else if !apiKeyConfigured then ErrorResponse(500, KeyMissingError)
    else
      match complete(OutgoingMessages(systemPrompt, body.value, isNumber))
      case Threw(e) => ErrorResponse(500, e)
      case Responded(status, json) =>
        if !(200 <= status <= 299) then ErrorResponse(status, UpstreamError)
        else if json.Malformed? then ErrorResponse(500, json.error)
        else Completion(json.value, AttachedAnalysis(body.value, isNumber))
  }
}
