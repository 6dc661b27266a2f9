/**
 * The dataset profile behind the dashboard cards (`parseData` in
 * src/components/DataDashboard.tsx): the text is cut into a header line and
 * at most 100 data lines, fields are aligned to headers by position, and
 * every column is classified as numeric or categorical and summarised.
 *
 * `parseFloat` is a parameter: it yields `None` where JavaScript yields NaN.
 */
module DataDashboard {
  import opened Wrappers
  import opened Text
  import opened Seqs

  /** Only the first 100 data lines are profiled. */
  const ProfiledRowLimit: nat := 100
  /** The preview shows the first 5 parsed rows. */
  const SampleRowCount: nat := 5
  /** A categorical column lists its 5 most frequent values. */
  const TopValueLimit: nat := 5

  /** A parsed row: the JavaScript object from column name to raw value. */
  type Row = map<string, string>

  datatype ValueCount = ValueCount(value: string, count: nat)

  datatype ColumnStat =
    | NumericStat(min: real, max: real, avg: real, uniqueValues: nat)
    | CategoricalStat(uniqueValues: nat, topValues: seq<ValueCount>)

  datatype DataStats = DataStats(
    totalRows: nat,
    totalColumns: nat,
    columns: seq<string>,
    numericColumns: seq<string>,
    categoricalColumns: seq<string>,
    sampleData: seq<Row>,
    columnStats: map<string, ColumnStat>)

  function Min(a: nat, b: nat): nat {
    if a < b then a else b
  }

  // ---------------------------------------------------------------------------
  // Lines, headers and rows

  /** `v.trim().replace(/^"|"$/g, '')`: trimmed, then one leading and one trailing quote dropped. */
  function CleanField(v: string): string {
    StripQuotes(Trim(v))
  }

  /** `replace(/^"|"$/g, '')`: a leading quote and then a trailing quote removed. */
  function StripQuotes(t: string): string {
    var a := if |t| > 0 && t[0] == '"' then t[1..] else t;
    if |a| > 0 && a[|a| - 1] == '"' then a[..|a| - 1] else a
  }

  /** A quoted trimmed value is read back without its quotes. */
  lemma CleanFieldUnquotes(x: string)
    requires IsTrimmed(x)
    ensures CleanField("\"" + x + "\"") == x
  {
    var q := "\"" + x + "\"";
    assert Trim(q) == q by {
      assert q[0] == '"' && q[|q| - 1] == '"';
      TrimOfTrimmed(q);
    }
    assert StripQuotes(q) == x by {
      var a := q[1..];
      assert a == x + "\"";
      assert a[..|a| - 1] == x;
    }
  }

  /** A trimmed value that neither starts nor ends with a quote is kept as it is. */
  lemma CleanFieldKeepsPlain(x: string)
    requires IsTrimmed(x)
    requires x == [] || (x[0] != '"' && x[|x| - 1] != '"')
    ensures CleanField(x) == x
  {
    TrimOfTrimmed(x);
    StripQuotesPlain(x);
  }

  lemma StripQuotesPlain(x: string)
    requires x == [] || (x[0] != '"' && x[|x| - 1] != '"')
    ensures StripQuotes(x) == x
  {
  }

  /** A line cut at commas, each field cleaned; even an empty line has one field. */
  function SplitFields(line: string): (fields: seq<string>)
    ensures |fields| >= 1
  {
    var parts := Split(line, ',');
    seq(|parts|, i requires 0 <= i < |parts| => CleanField(parts[i]))
  }

  /** A field that needs no quoting: trimmed, without a comma, and not starting or ending with a quote. */
  predicate IsPlainField(x: string) {
    IsTrimmed(x) && ',' !in x && (x == [] || (x[0] != '"' && x[|x| - 1] != '"'))
  }

  /** A line of plain fields joined by commas splits back into those fields. */
  lemma SplitFieldsRoundTrip(fields: seq<string>)
    requires |fields| >= 1
    requires forall i :: 0 <= i < |fields| ==> IsPlainField(fields[i])
    ensures SplitFields(Join(fields, ",")) == fields
  {
    PlainFieldsClean(fields);
    SplitJoin(fields, ',');
    assert "," == [','];
  }

  /** Plain fields hold no comma and cleaning keeps them. */
  lemma PlainFieldsClean(fields: seq<string>)
    requires forall i :: 0 <= i < |fields| ==> IsPlainField(fields[i])
    ensures forall i :: 0 <= i < |fields| ==> ',' !in fields[i] && CleanField(fields[i]) == fields[i]
  {
    forall i | 0 <= i < |fields|
      ensures ',' !in fields[i] && CleanField(fields[i]) == fields[i]
    {
      CleanFieldKeepsPlain(fields[i]);
    }
  }

  /** `values[index] || ''`: the field at `i`, or the empty string past the end. */
  function FieldAt(values: seq<string>, i: nat): string {
    if i < |values| then values[i] else ""
  }

  /** `headers.forEach((header, index) => row[header] = values[index] || '')`. */
  function BuildRow(headers: seq<string>, values: seq<string>): (row: Row)
    ensures row.Keys == Elements(headers)
  {
    if |headers| == 0 then map[]
    else
      var n := |headers| - 1;
      assert Elements(headers) == Elements(headers[..n]) + {headers[n]} by {
        assert headers == headers[..n] + [headers[n]];
      }
      BuildRow(headers[..n], values)[headers[n] := FieldAt(values, n)]
  }

  /**
   * Values are aligned to headers by position: the header at `i` gets the
   * field at `i` (or '' when the line is short), unless a later header with
   * the same name overwrites it.
   */
  lemma {:induction false} RowByPosition(headers: seq<string>, values: seq<string>, i: nat)
    requires i < |headers|
    requires forall j :: i < j < |headers| ==> headers[j] != headers[i]
    ensures BuildRow(headers, values)[headers[i]] == FieldAt(values, i)
  {
    var n := |headers| - 1;
    if i < n {
      assert headers[..n][i] == headers[i];
      RowByPosition(headers[..n], values, i);
    }
  }

  /**
   * `lines.slice(1, Math.min(101, lines.length))`, each line aligned to the
   * headers: the data lines after the header line, at most 100 of them.
   */
  function ProfiledRows(lines: seq<string>, headers: seq<string>): (rows: seq<Row>)
    requires |lines| >= 1
    ensures |rows| == Min(ProfiledRowLimit, |lines| - 1)
    ensures forall i :: 0 <= i < |rows| ==> rows[i] == BuildRow(headers, SplitFields(lines[i + 1]))
  {
    var n := Min(ProfiledRowLimit, |lines| - 1);
    seq(n, i requires 0 <= i < n => BuildRow(headers, SplitFields(lines[i + 1])))
  }

  // ---------------------------------------------------------------------------
  // Column values and classification

  function IsNonEmpty(v: string): bool {
    v != ""
  }

  /** `row[column]`; every profiled row holds every header, so the default is never used. */
  function Cell(row: Row, column: string): string {
    if column in row then row[column] else ""
  }

  /** `rows.map(row => row[column])`. */
  function Cells(rows: seq<Row>, column: string): seq<string> {
    seq(|rows|, i requires 0 <= i < |rows| => Cell(rows[i], column))
  }

  /** A value is among the column's cells exactly when some row holds it. */
  lemma CellsOfColumn(rows: seq<Row>, column: string)
    ensures forall v :: v in Cells(rows, column) <==> exists i :: 0 <= i < |rows| && Cell(rows[i], column) == v
  {
    var cells := Cells(rows, column);
    forall v | exists i :: 0 <= i < |rows| && Cell(rows[i], column) == v
      ensures v in cells
    {
      var i :| 0 <= i < |rows| && Cell(rows[i], column) == v;
      assert cells[i] == v;
    }
  }

  /** `rows.map(row => row[column]).filter(v => v !== '')`. */
  function ColumnValues(rows: seq<Row>, column: string): (values: seq<string>)
    ensures |values| <= |rows|
    ensures forall v :: v in values <==> v != "" && exists i :: 0 <= i < |rows| && Cell(rows[i], column) == v
  {
    CellsOfColumn(rows, column);
    Filter(Cells(rows, column), IsNonEmpty)
  }

  /** `values.map(v => parseFloat(v)).filter(v => !isNaN(v))`. */
  function NumericValues(values: seq<string>, parse: string -> Option<real>): (r: seq<real>)
    ensures |r| <= |values|
  {
    if |values| == 0 then []
    else
      var rest := NumericValues(values[1..], parse);
      match parse(values[0])
      case Some(x) => [x] + rest
      case None => rest
  }

  /** `v => !isNaN(parseFloat(v))`: the value parses as a number. */
  function Parses(parse: string -> Option<real>): string -> bool {
    (v: string) => parse(v).Some?
  }

  /**
   * The numeric values are the parsed values of exactly the values that
   * parse, one for each, in the order of the column.
   */
  lemma {:induction false} NumericValuesInOrder(values: seq<string>, parse: string -> Option<real>)
    ensures var ok := Filter(values, Parses(parse));
            && |NumericValues(values, parse)| == |ok|
            && forall i :: 0 <= i < |ok| ==> parse(ok[i]) == Some(NumericValues(values, parse)[i])
  {
    if |values| > 0 {
      NumericValuesInOrder(values[1..], parse);
    }
  }

  /** `numericValues.length > values.length * 0.7`, in exact arithmetic. */
  predicate IsNumericColumn(values: seq<string>, parse: string -> Option<real>) {
    10 * |NumericValues(values, parse)| > 7 * |values|
  }

  /**
   * The headers pushed to `numericColumns` (`numeric` true) or to
   * `categoricalColumns` (`numeric` false), in header order.
   */
  function ColumnsOfKind(headers: seq<string>, rows: seq<Row>, parse: string -> Option<real>, numeric: bool): seq<string> {
    if |headers| == 0 then []
    else
      var rest := ColumnsOfKind(headers[1..], rows, parse, numeric);
      if IsNumericColumn(ColumnValues(rows, headers[0]), parse) == numeric then [headers[0]] + rest else rest
  }

  /** Classifying one more header extends the list of its kind and leaves the other alone. */
  lemma {:induction false} ColumnsOfKindSnoc(headers: seq<string>, h: string, rows: seq<Row>, parse: string -> Option<real>, numeric: bool)
    ensures IsNumericColumn(ColumnValues(rows, h), parse) == numeric ==>
              ColumnsOfKind(headers + [h], rows, parse, numeric) == ColumnsOfKind(headers, rows, parse, numeric) + [h]
    ensures IsNumericColumn(ColumnValues(rows, h), parse) != numeric ==>
              ColumnsOfKind(headers + [h], rows, parse, numeric) == ColumnsOfKind(headers, rows, parse, numeric)
  {
    if |headers| == 0 {
      assert headers + [h] == [h];
    } else {
      assert (headers + [h])[1..] == headers[1..] + [h];
      ColumnsOfKindSnoc(headers[1..], h, rows, parse, numeric);
    }
  }

  /** A header is listed under a kind exactly when it is a header of that kind. */
  lemma {:induction false} ColumnsOfKindMembers(headers: seq<string>, rows: seq<Row>, parse: string -> Option<real>, numeric: bool)
    ensures forall h :: h in ColumnsOfKind(headers, rows, parse, numeric)
                  <==> h in headers && IsNumericColumn(ColumnValues(rows, h), parse) == numeric
  {
    if |headers| > 0 {
      ColumnsOfKindMembers(headers[1..], rows, parse, numeric);
      assert forall h :: h in headers <==> h == headers[0] || h in headers[1..];
    }
  }

  /** The two lists split the headers: their lengths add up and each keeps the header order. */
  lemma {:induction false} ColumnsOfKindSplit(headers: seq<string>, rows: seq<Row>, parse: string -> Option<real>)
    ensures |ColumnsOfKind(headers, rows, parse, true)| + |ColumnsOfKind(headers, rows, parse, false)| == |headers|
    ensures IsSubsequence(ColumnsOfKind(headers, rows, parse, true), headers)
    ensures IsSubsequence(ColumnsOfKind(headers, rows, parse, false), headers)
  {
    if |headers| > 0 {
      ColumnsOfKindSplit(headers[1..], rows, parse);
      if IsNumericColumn(ColumnValues(rows, headers[0]), parse) {
        SubsequenceDropFront(ColumnsOfKind(headers[1..], rows, parse, false), headers);
      } else {
        SubsequenceDropFront(ColumnsOfKind(headers[1..], rows, parse, true), headers);
      }
    }
  }

  // ---------------------------------------------------------------------------
  // Numeric summaries: Math.min, Math.max and the reduce-based average

  function MinOf(s: seq<real>): (m: real)
    requires |s| > 0
    ensures m in s && forall i :: 0 <= i < |s| ==> m <= s[i]
  {
    if |s| == 1 then s[0]
    else
      var r := MinOf(s[1..]);
      if s[0] <= r then s[0] else r
  }

  function MaxOf(s: seq<real>): (m: real)
    requires |s| > 0
    ensures m in s && forall i :: 0 <= i < |s| ==> s[i] <= m
  {
    if |s| == 1 then s[0]
    else
      var r := MaxOf(s[1..]);
      if s[0] >= r then s[0] else r
  }

  /** `s.reduce((a, b) => a + b, 0)`. */
  function Sum(s: seq<real>): real {
    if |s| == 0 then 0.0 else Sum(s[..|s| - 1]) + s[|s| - 1]
  }

  function Average(s: seq<real>): real
    requires |s| > 0
  {
    Sum(s) / (|s| as real)
  }

  lemma {:induction false} SumAtLeast(s: seq<real>, m: real)
    requires forall i :: 0 <= i < |s| ==> m <= s[i]
    ensures Sum(s) >= (|s| as real) * m
  {
    if |s| > 0 {
      SumAtLeast(s[..|s| - 1], m);
      assert ((|s| - 1) as real) * m + m == (|s| as real) * m;
    }
  }

  lemma {:induction false} SumAtMost(s: seq<real>, m: real)
    requires forall i :: 0 <= i < |s| ==> s[i] <= m
    ensures Sum(s) <= (|s| as real) * m
  {
    if |s| > 0 {
      SumAtMost(s[..|s| - 1], m);
      assert ((|s| - 1) as real) * m + m == (|s| as real) * m;
    }
  }

  /** The average of a numeric column lies between its minimum and its maximum. */
  lemma AverageBetween(s: seq<real>)
    requires |s| > 0
    ensures MinOf(s) <= Average(s) <= MaxOf(s)
  {
    AverageWithin(s, MinOf(s), MaxOf(s));
  }

  /** The average of values between two bounds lies between those bounds. */
  lemma AverageWithin(s: seq<real>, lo: real, hi: real)
    requires |s| > 0
    requires forall i :: 0 <= i < |s| ==> lo <= s[i] <= hi
    ensures lo <= Average(s) <= hi
  {
    SumAtLeast(s, lo);
    SumAtMost(s, hi);
    QuotientAtLeast(Sum(s), |s| as real, lo);
    QuotientAtMost(Sum(s), |s| as real, hi);
  }

  lemma QuotientAtLeast(total: real, n: real, lo: real)
    requires n > 0.0 && n * lo <= total
    ensures lo <= total / n
  {
  }

  lemma QuotientAtMost(total: real, n: real, hi: real)
    requires n > 0.0 && total <= n * hi
    ensures total / n <= hi
  {
  }

  // ---------------------------------------------------------------------------
  // Value counts and the top five

  /** The value counts the reduce builds: every distinct value with its number of occurrences. */
  function CountMap(values: seq<string>): map<string, nat> {
    map v | v in values :: Occurrences(values, v)
  }

  /** Counts keyed by exactly the values, each the number of occurrences, are the value counts. */
  lemma CountsAreCountMap(counts: map<string, nat>, values: seq<string>)
    requires counts.Keys == Elements(values)
    requires forall v :: v in counts ==> counts[v] == Occurrences(values, v)
    ensures counts == CountMap(values)
  {
  }

  /** `values.reduce((acc, val) => { acc[val] = (acc[val] || 0) + 1; return acc; }, {})`. */
  method CountValues(values: seq<string>) returns (counts: map<string, nat>)
    ensures counts.Keys == Elements(values)
    ensures forall v :: v in counts ==> counts[v] == Occurrences(values, v)
  {
    counts := map[];
    for i := 0 to |values|
      invariant counts.Keys == Elements(values[..i])
      invariant forall v :: v in counts ==> counts[v] == Occurrences(values[..i], v)
    {
      var v := values[i];
      assert values[..i + 1] == values[..i] + [v];
      counts := counts[v := (if v in counts then counts[v] else 0) + 1];
    }
    assert values[..|values|] == values;
  }

  /** The names in a list of value counts. */
  function Names(top: seq<ValueCount>): seq<string> {
    seq(|top|, i requires 0 <= i < |top| => top[i].value)
  }

  /** The index of the first candidate with the largest count. */
  function MaxCountIndex(cands: seq<string>, counts: map<string, nat>): (m: nat)
    requires |cands| > 0
    requires forall c :: c in cands ==> c in counts
    ensures m < |cands|
    ensures forall j :: 0 <= j < |cands| ==> counts[cands[j]] <= counts[cands[m]]
  {
    if |cands| == 1 then 0
    else
      var j := 1 + MaxCountIndex(cands[1..], counts);
      if counts[cands[0]] >= counts[cands[j]] then 0 else j
  }

  /** Removing the element at `m` from a duplicate-free sequence removes exactly that value. */
  lemma RemoveAt(cands: seq<string>, m: nat)
    requires m < |cands| && NoDuplicates(cands)
    ensures NoDuplicates(cands[..m] + cands[m + 1..])
    ensures forall c :: c in cands[..m] + cands[m + 1..] <==> c in cands && c != cands[m]
  {
    var rest := cands[..m] + cands[m + 1..];
    assert forall i :: 0 <= i < |rest| ==> rest[i] == cands[if i < m then i else i + 1];
    forall c | c in cands && c != cands[m] ensures c in rest {
      var k :| 0 <= k < |cands| && cands[k] == c;
      assert rest[if k < m then k else k - 1] == c;
    }
  }

  /**
   * `top` lists `k` of the candidates (all of them when there are fewer), by
   * non-increasing count, each with its count, none twice, and no candidate
   * left out has a larger count than a listed one.
   */
  ghost predicate IsTopOf(top: seq<ValueCount>, cands: seq<string>, counts: map<string, nat>, k: nat)
    requires forall c :: c in cands ==> c in counts
  {
    && |top| == Min(k, |cands|)
    && (forall i :: 0 <= i < |top| ==> top[i].value in cands && top[i].count == counts[top[i].value])
    && NoDuplicates(Names(top))
    && (forall i, j :: 0 <= i < j < |top| ==> top[i].count >= top[j].count)
    && (forall i, c :: 0 <= i < |top| && c in cands && c !in Names(top) ==> counts[c] <= top[i].count)
  }

  /**
   * `Object.entries(counts).sort((a, b) => b.count - a.count).slice(0, k)`:
   * the `k` candidates with the largest counts, by non-increasing count. The
   * model takes the earliest candidate among equal counts; the contract
   * leaves the order of ties open, as the source does.
   */
  function TopValues(cands: seq<string>, counts: map<string, nat>, k: nat): (top: seq<ValueCount>)
    requires NoDuplicates(cands)
    requires forall c :: c in cands ==> c in counts
    ensures IsTopOf(top, cands, counts, k)
    decreases k
  {
    if k == 0 || |cands| == 0 then []
    else
      var m := MaxCountIndex(cands, counts);
      RemoveAt(cands, m);
      var tail := TopValues(cands[..m] + cands[m + 1..], counts, k - 1);
      TopCons(cands, counts, m, tail, k);
      [ValueCount(cands[m], counts[cands[m]])] + tail
  }

  /** Putting the most frequent candidate in front of the top list of the others gives the top list. */
  lemma TopCons(cands: seq<string>, counts: map<string, nat>, m: nat, tail: seq<ValueCount>, k: nat)
    requires NoDuplicates(cands) && forall c :: c in cands ==> c in counts
    requires m < |cands| && k > 0
    requires forall j :: 0 <= j < |cands| ==> counts[cands[j]] <= counts[cands[m]]
    requires forall c :: c in cands[..m] + cands[m + 1..] <==> c in cands && c != cands[m]
    requires |cands[..m] + cands[m + 1..]| == |cands| - 1
    requires IsTopOf(tail, cands[..m] + cands[m + 1..], counts, k - 1)
    ensures IsTopOf([ValueCount(cands[m], counts[cands[m]])] + tail, cands, counts, k)
  {
    var rest := cands[..m] + cands[m + 1..];
    var best := cands[m];
    var top := [ValueCount(best, counts[best])] + tail;
    assert forall c :: c in cands ==> counts[c] <= counts[best];
    TopConsNames(best, counts[best], tail);
    TopConsValues(cands, rest, counts, best, tail);
    TopConsOrder(cands, rest, counts, best, tail);
    TopConsDominates(cands, rest, counts, best, tail);
  }

  /** The names of the extended list are the new name followed by the old names, none twice. */
  lemma TopConsNames(best: string, n: nat, tail: seq<ValueCount>)
    requires NoDuplicates(Names(tail)) && best !in Names(tail)
    ensures Names([ValueCount(best, n)] + tail) == [best] + Names(tail)
    ensures NoDuplicates(Names([ValueCount(best, n)] + tail))
  {
    var top := [ValueCount(best, n)] + tail;
    assert Names(top) == [best] + Names(tail);
  }

  /** Every entry of the extended list is a candidate with its count. */
  lemma TopConsValues(cands: seq<string>, rest: seq<string>, counts: map<string, nat>, best: string, tail: seq<ValueCount>)
    requires forall c :: c in cands ==> c in counts
    requires best in cands
    requires forall c :: c in rest <==> c in cands && c != best
    requires forall i :: 0 <= i < |tail| ==> tail[i].value in rest && tail[i].count == counts[tail[i].value]
    ensures best !in Names(tail)
    ensures var top := [ValueCount(best, counts[best])] + tail;
            forall i :: 0 <= i < |top| ==> top[i].value in cands && top[i].count == counts[top[i].value]
  {
    var top := [ValueCount(best, counts[best])] + tail;
    assert forall i :: 1 <= i < |top| ==> top[i] == tail[i - 1];
  }

  /** The extended list keeps counts non-increasing. */
  lemma TopConsOrder(cands: seq<string>, rest: seq<string>, counts: map<string, nat>, best: string, tail: seq<ValueCount>)
    requires forall c :: c in cands ==> c in counts
    requires best in cands && forall c :: c in cands ==> counts[c] <= counts[best]
    requires forall c :: c in rest <==> c in cands && c != best
    requires forall i :: 0 <= i < |tail| ==> tail[i].value in rest && tail[i].count == counts[tail[i].value]
    requires forall i, j :: 0 <= i < j < |tail| ==> tail[i].count >= tail[j].count
    ensures var top := [ValueCount(best, counts[best])] + tail;
            forall i, j :: 0 <= i < j < |top| ==> top[i].count >= top[j].count
  {
    var top := [ValueCount(best, counts[best])] + tail;
    forall i, j | 0 <= i < j < |top| ensures top[i].count >= top[j].count {
      assert top[j] == tail[j - 1];
      if i > 0 {
        assert top[i] == tail[i - 1];
      }
    }
  }

  /** No candidate left out of the extended list has a larger count than an entry of it. */
  lemma TopConsDominates(cands: seq<string>, rest: seq<string>, counts: map<string, nat>, best: string, tail: seq<ValueCount>)
    requires forall c :: c in cands ==> c in counts
    requires best in cands && forall c :: c in cands ==> counts[c] <= counts[best]
    requires forall c :: c in rest <==> c in cands && c != best
    requires forall i, c :: 0 <= i < |tail| && c in rest && c !in Names(tail) ==> counts[c] <= tail[i].count
    ensures var top := [ValueCount(best, counts[best])] + tail;
            forall i, c :: 0 <= i < |top| && c in cands && c !in Names(top) ==> counts[c] <= top[i].count
  {
    var top := [ValueCount(best, counts[best])] + tail;
    assert Names(top) == [best] + Names(tail);
    forall i, c | 0 <= i < |top| && c in cands && c !in Names(top) ensures counts[c] <= top[i].count {
      if i > 0 {
        assert top[i] == tail[i - 1];
        assert c in rest && c !in Names(tail);
      }
    }
  }

  /**
   * The top list of a column: at most `k` distinct values of the column, by
   * non-increasing count, each count the number of occurrences of that value,
   * and no unlisted value more frequent than a listed one.
   */
  ghost predicate IsTopList(top: seq<ValueCount>, values: seq<string>, k: nat) {
    && |top| == Min(k, |Elements(values)|)
    && NoDuplicates(Names(top))
    && (forall i :: 0 <= i < |top| ==> top[i].value in values && top[i].count == Occurrences(values, top[i].value))
    && (forall i, j :: 0 <= i < j < |top| ==> top[i].count >= top[j].count)
    && (forall i, v :: 0 <= i < |top| && v in values && v !in Names(top) ==> Occurrences(values, v) <= top[i].count)
  }

  /** The counts of a top list, added up. */
  function TopCountSum(top: seq<ValueCount>): nat {
    if |top| == 0 then 0 else top[0].count + TopCountSum(top[1..])
  }

  /** The counts of a top list add up to at most the number of non-empty values. */
  lemma TopCountsBounded(top: seq<ValueCount>, values: seq<string>, k: nat)
    requires IsTopList(top, values, k)
    ensures TopCountSum(top) <= |values|
  {
    TopCountSumIsOccurrences(top, values);
    SumOccurrencesBound(Names(top), values);
  }

  /** A list whose counts are occurrence counts adds up to the occurrences of its names. */
  lemma {:induction false} TopCountSumIsOccurrences(top: seq<ValueCount>, values: seq<string>)
    requires forall i :: 0 <= i < |top| ==> top[i].count == Occurrences(values, top[i].value)
    ensures TopCountSum(top) == SumOccurrences(Names(top), values)
  {
    if |top| > 0 {
      TopCountSumIsOccurrences(top[1..], values);
      assert Names(top)[1..] == Names(top[1..]);
    }
  }

  // ---------------------------------------------------------------------------
  // Column statistics

  /** The statistics `parseData` records for a column with the given non-empty values. */
  function ColumnStatOf(values: seq<string>, parse: string -> Option<real>): ColumnStat {
    var nv := NumericValues(values, parse);
    if 10 * |nv| > 7 * |values| then
      NumericStat(MinOf(nv), MaxOf(nv), Average(nv), |Distinct(values)|)
    else
      CategoricalStat(|Distinct(values)|, TopValues(Distinct(values), CountMap(values), TopValueLimit))
  }

  /**
   * A column is numeric exactly when more than 70% of its values parse as
   * numbers; an empty column is categorical; the unique count is the number
   * of distinct values; a numeric column's average lies between its minimum
   * and maximum; a categorical column lists its top five values.
   */
  lemma ColumnStatFacts(values: seq<string>, parse: string -> Option<real>)
    ensures var st := ColumnStatOf(values, parse);
            && (st.NumericStat? <==> IsNumericColumn(values, parse))
            && (|values| == 0 ==> st.CategoricalStat?)
            && st.uniqueValues == |Elements(values)| <= |values|
            && (st.NumericStat? ==> st.min <= st.avg <= st.max)
            && (st.CategoricalStat? ==> IsTopList(st.topValues, values, TopValueLimit))
  {
    DistinctCard(values);
    var nv := NumericValues(values, parse);
    if 10 * |nv| > 7 * |values| {
      AverageBetween(nv);
    } else {
      TopOfColumn(values);
    }
  }

  /** The top list built from the distinct values and their counts is the column's top list. */
  lemma TopOfColumn(values: seq<string>)
    ensures IsTopList(TopValues(Distinct(values), CountMap(values), TopValueLimit), values, TopValueLimit)
  {
    DistinctCard(values);
    var top := TopValues(Distinct(values), CountMap(values), TopValueLimit);
    assert forall i :: 0 <= i < |top| ==> top[i].value in values;
  }

  /**
   * One turn of the `headers.forEach` body: the statistics of a column with the
   * given non-empty values, with the counts built by the reduce.
   */
  method ColumnStatistics(values: seq<string>, parse: string -> Option<real>) returns (isNumeric: bool, stat: ColumnStat)
    ensures isNumeric == IsNumericColumn(values, parse)
    ensures stat == ColumnStatOf(values, parse)
  {
    var numericValues := NumericValues(values, parse);
    isNumeric := 10 * |numericValues| > 7 * |values|;
    if isNumeric {
      stat := NumericStat(MinOf(numericValues), MaxOf(numericValues), Average(numericValues), |Distinct(values)|);
    } else {
      var counts := CountValues(values);
      CountsAreCountMap(counts, values);
      stat := CategoricalStat(|Distinct(values)|, TopValues(Distinct(values), counts, TopValueLimit));
    }
  }

  /**
   * The `headers.forEach` loop: each header is pushed to `numericColumns` or
   * `categoricalColumns` and gets its statistics in `columnStats`.
   */
  method AnalyzeColumns(headers: seq<string>, rows: seq<Row>, parse: string -> Option<real>)
    returns (numericColumns: seq<string>, categoricalColumns: seq<string>, columnStats: map<string, ColumnStat>)
    ensures forall h :: h in columnStats ==> columnStats[h] == ColumnStatOf(ColumnValues(rows, h), parse)
    ensures columnStats.Keys == Elements(headers)
    ensures numericColumns == ColumnsOfKind(headers, rows, parse, true)
    ensures categoricalColumns == ColumnsOfKind(headers, rows, parse, false)
  {
    numericColumns, categoricalColumns, columnStats := [], [], map[];
    for i := 0 to |headers|
      invariant forall h :: h in columnStats ==> columnStats[h] == ColumnStatOf(ColumnValues(rows, h), parse)
      invariant columnStats.Keys == Elements(headers[..i])
      invariant numericColumns == ColumnsOfKind(headers[..i], rows, parse, true)
      invariant categoricalColumns == ColumnsOfKind(headers[..i], rows, parse, false)
    {
      var column := headers[i];
      TakeSnoc(headers, i);
      ColumnsOfKindSnoc(headers[..i], column, rows, parse, true);
      ColumnsOfKindSnoc(headers[..i], column, rows, parse, false);
      var values := ColumnValues(rows, column);
      var isNumeric, stat := ColumnStatistics(values, parse);
      if isNumeric {
        numericColumns := numericColumns + [column];
      } else {
        categoricalColumns := categoricalColumns + [column];
      }
      KeysGrow(columnStats, headers, i, stat);
      columnStats := columnStats[column := stat];
    }
    assert headers[..|headers|] == headers;
  }

  /** Recording the next header's entry keeps the keys equal to the headers seen so far. */
  lemma KeysGrow(m: map<string, ColumnStat>, headers: seq<string>, i: nat, v: ColumnStat)
    requires i < |headers| && m.Keys == Elements(headers[..i])
    ensures m[headers[i] := v].Keys == Elements(headers[..i + 1])
  {
    TakeSnoc(headers, i);
    ElementsSnoc(headers[..i], headers[i]);
  }

  /**
   * Every header lands in exactly one of the two lists, each list keeps the
   * header order, and together they account for all headers.
   */
  lemma ColumnsPartition(headers: seq<string>, rows: seq<Row>, parse: string -> Option<real>)
    ensures var num := ColumnsOfKind(headers, rows, parse, true);
            var cat := ColumnsOfKind(headers, rows, parse, false);
            && |num| + |cat| == |headers|
            && IsSubsequence(num, headers) && IsSubsequence(cat, headers)
            && (forall h :: h in num <==> h in headers && IsNumericColumn(ColumnValues(rows, h), parse))
            && (forall h :: h in cat <==> h in headers && !IsNumericColumn(ColumnValues(rows, h), parse))
  {
    ColumnsOfKindSplit(headers, rows, parse);
    ColumnsOfKindMembers(headers, rows, parse, true);
    ColumnsOfKindMembers(headers, rows, parse, false);
  }

  /** The stats `parseData` stores; `None` when the text has fewer than two lines. */
  method ParseData(fileContent: string, parse: string -> Option<real>) returns (stats: Option<DataStats>)
    ensures stats.None? <==> |Lines(fileContent)| < 2
    ensures stats.Some? ==>
      var lines := Lines(fileContent);
      var headers := SplitFields(lines[0]);
      var rows := ProfiledRows(lines, headers);
      && stats.value.totalRows == |lines| - 1
      && stats.value.totalColumns == |headers|
      && stats.value.columns == headers
      && stats.value.numericColumns == ColumnsOfKind(headers, rows, parse, true)
      && stats.value.categoricalColumns == ColumnsOfKind(headers, rows, parse, false)
      && stats.value.columnStats.Keys == Elements(headers)
      && (forall h :: h in stats.value.columnStats ==>
            stats.value.columnStats[h] == ColumnStatOf(ColumnValues(rows, h), parse))
      && stats.value.sampleData == rows[..Min(SampleRowCount, |rows|)]
  {
    var lines := Lines(fileContent);
    if |lines| < 2 {
      return None;
    }
    var headers := SplitFields(lines[0]);
    var rows := ProfiledRows(lines, headers);
    var numericColumns, categoricalColumns, columnStats := AnalyzeColumns(headers, rows, parse);
    stats := Some(DataStats(
      |lines| - 1,
      |headers|,
      headers,
      numericColumns,
      categoricalColumns,
      rows[..Min(SampleRowCount, |rows|)],
      columnStats));
  }
}
