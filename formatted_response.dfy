/**
 * How an assistant answer is laid out (src/components/FormattedResponse.tsx):
 * an answer holding both `**Total` and `**Breakdown by` is split into a
 * title, a total, a table of breakdown rows and two bullet lists; any other
 * answer is shown as it is.
 *
 * The two regular expressions of the component are written out as matchers
 * that follow the JavaScript engine: leftmost match, greedy and lazy
 * quantifiers with backtracking, `.` never matching a line terminator.
 */
module FormattedResponse {
  import opened Wrappers
  import opened Text
  import opened Seqs

  const TotalMarker := "**Total"
  const BreakdownMarker := "**Breakdown by"
  const InsightsMarker := "**Key Insights"
  const RecommendationsMarker := "**Recommendations"
  /** The emoji the title line starts with. */
  const TitleEmoji: char := '\U{1F4CA}'

  datatype BreakdownRow = BreakdownRow(condition: string, value: string, percentage: string)

  datatype Rendering =
    | Verbatim(content: string)
    | Structured(
        title: string,
        totalValue: string,
        breakdown: seq<BreakdownRow>,
        insights: seq<string>,
        recommendations: seq<string>)

  // ---------------------------------------------------------------------------
  // Lines, `findIndex` and `slice`

  /** `line.trim()` is truthy. */
  predicate IsContentLine(line: string) {
    Trim(line) != ""
  }

  /** `content.split('\n').filter(line => line.trim())`. */
  function ContentLines(content: string): (lines: seq<string>)
    ensures forall l :: l in lines <==> l in Split(content, '\n') && !IsBlank(l)
  {
    Filter(Split(content, '\n'), IsContentLine)
  }

  /** `lines.findIndex(line => line.includes(marker))`: the first index whose line holds `marker`, or -1. */
  function FindIndex(lines: seq<string>, marker: string): (r: int)
    ensures -1 <= r < |lines|
    ensures r >= 0 ==> Includes(lines[r], marker)
    ensures forall k :: 0 <= k < |lines| && (r == -1 || k < r) ==> !Includes(lines[k], marker)
  {
    if |lines| == 0 then -1
    else if Includes(lines[0], marker) then 0
    else
      var r := FindIndex(lines[1..], marker);
      if r == -1 then -1 else r + 1
  }

  /** An index argument of `slice`: a negative one counts from the end; the result is clamped to the length. */
  function SliceIndex(i: int, length: nat): (k: nat)
    ensures k <= length
    ensures 0 <= i <= length ==> k == i
  {
    if i < 0 then (if length + i < 0 then 0 else length + i)
    else if i > length then length
    else i
  }

  /** `xs.slice(start, end)`. */
  function Slice<T>(xs: seq<T>, start: int, end: int): seq<T> {
    var a := SliceIndex(start, |xs|);
    var b := SliceIndex(end, |xs|);
    if a < b then xs[a..b] else []
  }

  /** `line.startsWith('-')`. */
  predicate IsBullet(line: string) {
    |line| > 0 && line[0] == '-'
  }

  // ---------------------------------------------------------------------------
  // Title, bullets

  /** `line.replace(/^📊\s*\/, '')`. */
  function Title(line: string): string {
    if |line| > 0 && line[0] == TitleEmoji then line[RunEnd(line, 1, IsSpace)..] else line
  }

  /** The emoji and the white space after it are removed; any other line is kept. */
  lemma TitleFacts(pad: string, text: string, line: string)
    requires IsBlank(pad) && (text == [] || !IsSpace(text[0]))
    ensures Title([TitleEmoji] + pad + text) == text
    ensures (|line| == 0 || line[0] != TitleEmoji) ==> Title(line) == line
  {
    var s := [TitleEmoji] + pad + text;
    assert forall k :: 1 <= k < 1 + |pad| ==> s[k] == pad[k - 1];
    assert 1 + |pad| < |s| ==> s[1 + |pad|] == text[0];
    RunEndExact(s, 1, 1 + |pad|, IsSpace);
    assert s[1 + |pad|..] == text;
  }

  /** `line.replace(/^-\s*\/, '').trim()`. */
  function BulletText(line: string): string {
    var rest := if IsBullet(line) then line[RunEnd(line, 1, IsSpace)..] else line;
    Trim(rest)
  }

  /** On a bullet line, the item is the trimmed text after the dash. */
  lemma BulletTextIsTrim(line: string)
    requires IsBullet(line)
    ensures BulletText(line) == Trim(line[1..])
  {
    var e := RunEnd(line, 1, IsSpace);
    RunEndFacts(line, 1, IsSpace);
    assert line[1..] == line[1..e] + line[e..];
    TrimAfterPad(line[1..e], line[e..]);
  }

  /** Writing an item as `- item` and reading it back gives the item. */
  lemma BulletRoundTrip(item: string)
    requires IsTrimmed(item)
    ensures BulletText("- " + item) == item
  {
    var line := "- " + item;
    assert 2 < |line| ==> line[2] == item[0];
    RunEndExact(line, 1, 2, IsSpace);
    assert line[2..] == item;
    TrimOfTrimmed(item);
  }

  /** `slice.filter(line => line.startsWith('-')).map(line => line.replace(/^-\s*\/, '').trim())`. */
  function BulletItems(lines: seq<string>): (items: seq<string>)
    ensures |items| <= |lines|
  {
    var bullets := Filter(lines, IsBullet);
    seq(|bullets|, i requires 0 <= i < |bullets| => BulletText(bullets[i]))
  }

  /** The items are the bullet lines in order, each the trimmed text after its dash. */
  lemma BulletItemsTrimmed(lines: seq<string>)
    ensures var bullets := Filter(lines, IsBullet);
            && |BulletItems(lines)| == |bullets|
            && forall i :: 0 <= i < |bullets| ==> IsBullet(bullets[i]) && BulletItems(lines)[i] == Trim(bullets[i][1..])
  {
    var bullets := Filter(lines, IsBullet);
    forall i | 0 <= i < |bullets|
      ensures IsBullet(bullets[i]) && BulletItems(lines)[i] == Trim(bullets[i][1..])
    {
      assert bullets[i] in bullets;
      BulletTextIsTrim(bullets[i]);
    }
  }

  // ---------------------------------------------------------------------------
  // `/\*\*Total.*?\*\*:\s*(.+)/`

  /** `.`: any character but a line terminator. */
  predicate IsDot(c: char) {
    !IsLineTerminator(c)
  }

  /**
   * `\s*(.+)` once `\s*` has taken the characters up to `j`: `.+` takes the
   * run of non-terminators from `j`; when it cannot start, `\s*` gives back
   * one character and the match is retried.
   */
  function GreedyRest(s: string, r: nat, j: nat): (g: Option<string>)
    requires r <= j <= |s|
    decreases j - r
  {
    if j < |s| && IsDot(s[j]) then Some(s[j..RunEnd(s, j, IsDot)])
    else if j > r then GreedyRest(s, r, j - 1)
    else None
  }

  /** `.*?\*\*:\s*(.+)` from `q`: the lazy `.*?` tries every `**:` in turn and never crosses a line terminator. */
  function TotalFrom(s: string, q: nat): Option<string>
    requires q <= |s|
    decreases |s| - q
  {
    var here := if OccursAt(s, "**:", q) then GreedyRest(s, q + 3, RunEnd(s, q + 3, IsSpace)) else None;
    if here.Some? then here
    else if q < |s| && IsDot(s[q]) then TotalFrom(s, q + 1)
    else None
  }

  /** The leftmost match: the first `**Total` at or after `p` from which the rest of the pattern matches. */
  function TotalSearch(s: string, p: nat): Option<string>
    requires p <= |s|
    decreases |s| - p
  {
    var here := if OccursAt(s, TotalMarker, p) then TotalFrom(s, p + |TotalMarker|) else None;
    if here.Some? then here
    else if p < |s| then TotalSearch(s, p + 1)
    else None
  }

  /** The group text trimmed, or "" when there is no match. */
  function TrimmedGroup(g: Option<string>): string {
    match g
    case Some(v) => Trim(v)
    case None => ""
  }

  /** `totalMatch ? totalMatch[1].trim() : ""` for the `**Total` line. */
  function TotalValue(line: string): string {
    TrimmedGroup(TotalSearch(line, 0))
  }

  /** A line without line terminators. */
  predicate IsPlainLine(s: string) {
    forall k :: 0 <= k < |s| ==> IsDot(s[k])
  }

  /** On a plain line, `.+` after the spaces takes the rest of the line. */
  lemma GreedyRestAfterSpaces(s: string, r: nat, e: nat)
    requires IsPlainLine(s) && r <= e < |s| && e == RunEnd(s, r, IsSpace)
    ensures GreedyRest(s, r, e) == Some(s[e..])
    ensures Trim(s[e..]) == Trim(s[r..])
  {
    RunEndFacts(s, r, IsSpace);
    RunEndExact(s, e, |s|, IsDot);
    assert s[e..RunEnd(s, e, IsDot)] == s[e..];
    assert s[r..] == s[r..e] + s[e..];
    TrimAfterPad(s[r..e], s[e..]);
  }

  /** On a plain line that ends in spaces, `\s*` gives back its last space to `.+`. */
  lemma GreedyRestAllSpaces(s: string, r: nat)
    requires IsPlainLine(s) && r < |s| && RunEnd(s, r, IsSpace) == |s|
    ensures GreedyRest(s, r, |s|) == Some(s[|s| - 1..])
    ensures Trim(s[|s| - 1..]) == "" == Trim(s[r..])
  {
    RunEndFacts(s, r, IsSpace);
    RunEndExact(s, |s| - 1, |s|, IsDot);
    assert s[|s| - 1..RunEnd(s, |s| - 1, IsDot)] == s[|s| - 1..];
    assert IsBlank(s[|s| - 1..]);
    assert IsBlank(s[r..]);
  }

  /** On a plain line, `\s*(.+)` at `r` matches exactly when text remains, and the group trims to the rest trimmed. */
  lemma GreedyRestPlain(s: string, r: nat)
    requires IsPlainLine(s) && r <= |s|
    ensures GreedyRest(s, r, RunEnd(s, r, IsSpace)).Some? <==> r < |s|
    ensures GreedyRest(s, r, RunEnd(s, r, IsSpace)).Some? ==>
              Trim(GreedyRest(s, r, RunEnd(s, r, IsSpace)).value) == Trim(s[r..])
  {
    var e := RunEnd(s, r, IsSpace);
    if e < |s| {
      GreedyRestAfterSpaces(s, r, e);
    } else if r < |s| {
      GreedyRestAllSpaces(s, r);
    }
  }

  /** On a plain line, once `.*?` fails at `q` it fails at every later position. */
  lemma {:induction false} TotalFromStaysFailed(s: string, q: nat, q2: nat)
    requires IsPlainLine(s) && q <= q2 <= |s| && TotalFrom(s, q).None?
    ensures TotalFrom(s, q2).None?
    decreases q2 - q
  {
    if q < q2 {
      TotalFromStaysFailed(s, q + 1, q2);
    }
  }


  /** The trimmed text after the first `**:` at or after `q`, or "" when there is none. */
  function TextAfterSeparator(s: string, q: nat): string {
    var k := IndexOf(s, "**:", q);
    if k < 0 then "" else Trim(s[k + 3..])
  }

  /** On a plain line, the lazy part finds the first `**:` and the value is what follows it, trimmed. */
  lemma {:induction false} TotalFromPlain(s: string, q: nat)
    requires IsPlainLine(s) && q <= |s|
    ensures TrimmedGroup(TotalFrom(s, q)) == TextAfterSeparator(s, q)
    decreases |s| - q
  {
    if q + 3 > |s| {
      if q < |s| {
        TotalFromPlain(s, q + 1);
      }
    } else if OccursAt(s, "**:", q) {
      GreedyRestPlain(s, q + 3);
      if q + 3 == |s| {
        TotalFromPlain(s, q + 1);
        assert TotalFrom(s, q) == TotalFrom(s, q + 1);
        assert s[q + 3..] == "";
      }
    } else {
      TotalFromPlain(s, q + 1);
      assert IndexOf(s, "**:", q) == IndexOf(s, "**:", q + 1);
    }
  }

  /** The lazy part tried from the first `**Total` at or after `p` only. */
  function FromFirstMarker(s: string, p: nat): Option<string>
    requires p <= |s|
  {
    var t := IndexOf(s, TotalMarker, p);
    if t < 0 then None else TotalFrom(s, t + |TotalMarker|)
  }

  /** On a plain line, the leftmost `**Total` decides the match. */
  lemma {:induction false} TotalSearchPlain(s: string, p: nat)
    requires IsPlainLine(s) && p <= |s|
    ensures TotalSearch(s, p) == FromFirstMarker(s, p)
    decreases |s| - p
  {
    if p < |s| {
      TotalSearchPlain(s, p + 1);
      if OccursAt(s, TotalMarker, p) {
        TotalSearchAtMarker(s, p);
      } else {
        IndexOfStep(s, TotalMarker, p);
      }
    }
  }

  /** A `**Total` at `p` decides the match unless the rest fails there, and then no later one succeeds either. */
  lemma TotalSearchAtMarker(s: string, p: nat)
    requires IsPlainLine(s) && p < |s| && OccursAt(s, TotalMarker, p)
    requires TotalSearch(s, p + 1) == FromFirstMarker(s, p + 1)
    ensures TotalSearch(s, p) == FromFirstMarker(s, p)
  {
    assert IndexOf(s, TotalMarker, p) == p;
    if TotalFrom(s, p + |TotalMarker|).None? {
      var t := IndexOf(s, TotalMarker, p + 1);
      if t >= 0 {
        TotalFromStaysFailed(s, p + |TotalMarker|, t + |TotalMarker|);
      }
    }
  }

  /**
   * The total as a reader of a single line would state it: the trimmed text
   * after the first `**:` that follows the first `**Total`, and "" when there
   * is no `**Total` or no `**:` after it (as in `**Total Meals:** 47`).
   */
  function PlainTotal(line: string): string {
    var t := IndexOf(line, TotalMarker, 0);
    if t < 0 then "" else TextAfterSeparator(line, t + |TotalMarker|)
  }

  /** On a line without line terminators, the pattern finds exactly that total. */
  lemma TotalValuePlain(line: string)
    requires IsPlainLine(line)
    ensures TotalValue(line) == PlainTotal(line)
  {
    TotalSearchPlain(line, 0);
    var t := IndexOf(line, TotalMarker, 0);
    if t >= 0 {
      TotalFromPlain(line, t + |TotalMarker|);
    }
  }

  // ---------------------------------------------------------------------------
  // `/-\s*(.+?):\s*(\$[\d,\.]+)\s*\((\d+\.?\d*%)/`

  /** `[\d,\.]`. */
  predicate IsAmountChar(c: char) {
    IsDigit(c) || c == ',' || c == '.'
  }

  /** A dollar amount: `$` and at least one digit, comma or dot. */
  predicate IsAmount(v: string) {
    |v| >= 2 && v[0] == '$' && forall k :: 1 <= k < |v| ==> IsAmountChar(v[k])
  }

  /**
   * A percentage as `\d+\.?\d*%` admits it: a digit first, `%` last, and
   * between them digits and dots, no two of them dots.
   */
  predicate IsPercentage(p: string) {
    && |p| >= 2 && IsDigit(p[0]) && p[|p| - 1] == '%'
    && (forall k :: 0 < k < |p| - 1 ==> IsDigit(p[k]) || p[k] == '.')
    && (forall k, m :: 0 < k < m < |p| - 1 && p[k] == '.' ==> p[m] != '.')
  }

  /** Digits from `i` to `d`, then `%`, or a dot at `d`, more digits and `%`, make a percentage. */
  lemma PercentRun(s: string, i: nat, d: nat, f: nat)
    requires i < d < f <= |s| && s[f - 1] == '%'
    requires forall k :: i <= k < d ==> IsDigit(s[k])
    requires d == f - 1 || (s[d] == '.' && forall k :: d < k < f - 1 ==> IsDigit(s[k]))
    ensures IsPercentage(s[i..f])
  {
    var p := s[i..f];
    assert forall k :: 0 <= k < |p| ==> p[k] == s[i + k];
  }

  /** `\$[\d,\.]+` at `i`: the end of the amount, if one starts there. */
  function AmountEnd(s: string, i: nat): (e: Option<nat>)
    requires i <= |s|
    ensures e.Some? ==> i + 2 <= e.value <= |s| && IsAmount(s[i..e.value])
  {
    if !(i < |s| && s[i] == '$') then None
    else
      var e := RunEnd(s, i + 1, IsAmountChar);
      RunEndFacts(s, i + 1, IsAmountChar);
      if e == i + 1 then None else Some(e)
  }

  /** `\d+\.?\d*%` at `i`: the end of the percentage, if one starts there. */
  function PercentEnd(s: string, i: nat): (f: Option<nat>)
    requires i <= |s|
    ensures f.Some? ==> i + 2 <= f.value <= |s| && IsPercentage(s[i..f.value])
  {
    var d := RunEnd(s, i, IsDigit);
    RunEndFacts(s, i, IsDigit);
    if d == i then None
    else if d < |s| && s[d] == '%' then
      PercentRun(s, i, d, d + 1);
      Some(d + 1)
    else if d < |s| && s[d] == '.' then
      var d2 := RunEnd(s, d + 1, IsDigit);
      RunEndFacts(s, d + 1, IsDigit);
      if d2 < |s| && s[d2] == '%' then
        PercentRun(s, i, d, d2 + 1);
        Some(d2 + 1)
      else None
    else None
  }

  /** `\s*\((\d+\.?\d*%)` at `i`: where the percentage starts and ends, if one follows. */
  function PercentTail(s: string, i: nat): (b: Option<(nat, nat)>)
    requires i <= |s|
    ensures b.Some? ==> i < b.value.0 <= b.value.1 <= |s| && IsPercentage(s[b.value.0..b.value.1])
  {
    var e := RunEnd(s, i, IsSpace);
    if !(e < |s| && s[e] == '(') then None
    else
      match PercentEnd(s, e + 1)
      case None => None
      case Some(f) => Some((e + 1, f))
  }

  /** `:\s*(\$[\d,\.]+)\s*\((\d+\.?\d*%)` at `k`: the amount and the percentage. */
  function AmountTail(s: string, k: nat): (t: Option<(string, string)>)
    requires k <= |s|
    ensures t.Some? ==> IsAmount(t.value.0) && IsPercentage(t.value.1)
  {
    if !(k < |s| && s[k] == ':') then None
    else
      var e1 := RunEnd(s, k + 1, IsSpace);
      match AmountEnd(s, e1)
      case None => None
      case Some(e2) =>
        match PercentTail(s, e2)
        case None => None
        case Some(b) => Some((s[e1..e2], s[b.0..b.1]))
  }

  /** A row whose value is an amount and whose percentage is a percentage. */
  predicate IsRow(row: BreakdownRow) {
    IsAmount(row.value) && IsPercentage(row.percentage)
  }

  /** The row a match makes: every group trimmed. */
  function MakeRow(condition: string, amount: string, percentage: string): (row: BreakdownRow)
    requires IsAmount(amount) && IsPercentage(percentage)
    ensures IsRow(row)
  {
    AmountTrimmed(amount);
    PercentageTrimmed(percentage);
    BreakdownRow(Trim(condition), Trim(amount), Trim(percentage))
  }

  /** A text that starts with `$` or a digit and ends with a non-space is already trimmed. */
  lemma NoSpaceTrimmed(t: string)
    requires |t| >= 1 && (t[0] == '$' || IsDigit(t[0])) && !IsSpace(t[|t| - 1])
    ensures Trim(t) == t
  {
    TrimOfTrimmed(t);
  }

  /** An amount has no white space at either end, so `trim` keeps it. */
  lemma AmountTrimmed(amount: string)
    requires IsAmount(amount)
    ensures Trim(amount) == amount
  {
    assert IsAmountChar(amount[|amount| - 1]);
    NoSpaceTrimmed(amount);
  }

  /** A percentage has no white space at either end, so `trim` keeps it. */
  lemma PercentageTrimmed(pct: string)
    requires IsPercentage(pct)
    ensures Trim(pct) == pct
  {
    NoSpaceTrimmed(pct);
  }

  /**
   * `(.+?)` having taken the text up to `k`: the lazy group grows one
   * character at a time until the rest of the pattern matches; where it stops.
   */
  function LabelEnd(s: string, k: nat): (c: Option<nat>)
    requires k <= |s|
    ensures c.Some? ==> k <= c.value < |s| && s[c.value] == ':'
    decreases |s| - k
  {
    if k == |s| then None
    else if s[k] == ':' && AmountTail(s, k).Some? then Some(k)
    else if IsDot(s[k]) then LabelEnd(s, k + 1)
    else None
  }

  /** The row of a match whose condition group is `s[a..c]`, when the amount and the percentage follow. */
  function RowAt(s: string, a: nat, c: nat): (row: Option<BreakdownRow>)
    requires a <= c <= |s|
    ensures row.Some? ==> IsRow(row.value)
  {
    match AmountTail(s, c)
    case Some(t) => Some(MakeRow(s[a..c], t.0, t.1))
    case None => None
  }

  /** `-\s*` taken up to `j`, then the rest; `\s*` gives back a character at a time. */
  function AfterDash(s: string, p: nat, j: nat): (row: Option<BreakdownRow>)
    requires p < j <= |s|
    ensures row.Some? ==> IsRow(row.value)
    decreases j
  {
    var here := if j < |s| && IsDot(s[j]) then
                  match LabelEnd(s, j + 1)
                  case Some(c) => RowAt(s, j, c)
                  case None => None
                else None;
    if here.Some? then here
    else if j > p + 1 then AfterDash(s, p, j - 1)
    else None
  }

  /** The leftmost match of the breakdown pattern at or after `p`. */
  function BreakdownSearch(s: string, p: nat): (row: Option<BreakdownRow>)
    requires p <= |s|
    ensures row.Some? ==> IsRow(row.value)
    decreases |s| - p
  {
    var here := if p < |s| && s[p] == '-' then AfterDash(s, p, RunEnd(s, p + 1, IsSpace)) else None;
    if here.Some? then here
    else if p < |s| then BreakdownSearch(s, p + 1)
    else None
  }

  /** `line.match(...)` turned into a row, or nothing. */
  function BreakdownMatch(line: string): (row: Option<BreakdownRow>)
    ensures row.Some? ==> IsRow(row.value)
  {
    BreakdownSearch(line, 0)
  }

  /** `breakdownLines.map(...).filter(Boolean)`: the rows of the lines that match, in order. */
  function BreakdownRows(lines: seq<string>): (rows: seq<BreakdownRow>)
    ensures |rows| <= |lines|
    ensures forall r :: r in rows ==> IsRow(r) && exists l :: l in lines && BreakdownMatch(l) == Some(r)
    ensures forall l :: l in lines && BreakdownMatch(l).Some? ==> BreakdownMatch(l).value in rows
  {
    if |lines| == 0 then []
    else
      var rest := BreakdownRows(lines[1..]);
      assert forall l :: l in lines <==> l == lines[0] || l in lines[1..];
      match BreakdownMatch(lines[0])
      case Some(r) => [r] + rest
      case None => rest
  }

  /** Digits only. */
  predicate IsDigits(d: string) {
    forall k :: 0 <= k < |d| ==> IsDigit(d[k])
  }

  /** A percentage as the answers write it: digits, optionally a dot and more digits, then `%`. */
  function PercentText(whole: string, dotted: bool, fraction: string): string {
    if dotted then whole + "." + fraction + "%" else whole + "%"
  }

  /** Digits from `i` up to a `%` at `d`: the percentage ends after the `%`. */
  lemma PercentEndAt(s: string, i: nat, d: nat)
    requires i < d < |s| && s[d] == '%'
    requires forall m :: i <= m < d ==> IsDigit(s[m])
    ensures PercentEnd(s, i) == Some(d + 1)
  {
    RunEndExact(s, i, d, IsDigit);
  }

  /** Digits from `i`, a dot at `d`, digits again and a `%` at `d2`: the percentage ends after the `%`. */
  lemma PercentEndDottedAt(s: string, i: nat, d: nat, d2: nat)
    requires i < d < d2 < |s| && s[d] == '.' && s[d2] == '%'
    requires forall m :: i <= m < d ==> IsDigit(s[m])
    requires forall m :: d < m < d2 ==> IsDigit(s[m])
    ensures PercentEnd(s, i) == Some(d2 + 1)
  {
    RunEndExact(s, i, d, IsDigit);
    RunEndExact(s, d + 1, d2, IsDigit);
  }

  /** A written percentage is read back whole. */
  lemma PercentTextAt(s: string, i: nat, whole: string, dotted: bool, fraction: string)
    requires |whole| >= 1 && IsDigits(whole) && IsDigits(fraction)
    requires i + |PercentText(whole, dotted, fraction)| <= |s|
    requires s[i..i + |PercentText(whole, dotted, fraction)|] == PercentText(whole, dotted, fraction)
    ensures PercentEnd(s, i) == Some(i + |PercentText(whole, dotted, fraction)|)
  {
    var p := PercentText(whole, dotted, fraction);
    var d := i + |whole|;
    assert forall m :: i <= m < d ==> s[m] == p[m - i] == whole[m - i];
    assert s[d] == p[|whole|];
    if dotted {
      var d2 := d + 1 + |fraction|;
      assert forall m :: d < m < d2 ==> s[m] == p[m - i] == fraction[m - d - 1];
      assert s[d2] == p[|p| - 1];
      PercentEndDottedAt(s, i, d, d2);
    } else {
      PercentEndAt(s, i, d);
    }
  }

  /** An amount from `i` to `e` followed by something else is read whole. */
  lemma AmountEndAt(s: string, i: nat, e: nat)
    requires i < e <= |s| && IsAmount(s[i..e]) && (e == |s| || !IsAmountChar(s[e]))
    ensures AmountEnd(s, i) == Some(e)
  {
    assert s[i] == s[i..e][0];
    assert forall m :: i + 1 <= m < e ==> s[m] == s[i..e][m - i];
    RunEndExact(s, i + 1, e, IsAmountChar);
  }

  /** ` (` and a percentage from `i`. */
  lemma PercentTailAt(s: string, i: nat, f: nat)
    requires i + 2 <= |s| && s[i] == ' ' && s[i + 1] == '(' && PercentEnd(s, i + 2) == Some(f)
    ensures PercentTail(s, i) == Some((i + 2, f))
  {
    RunEndExact(s, i, i + 1, IsSpace);
  }

  /** `: `, an amount ending at `e2`, and ` (` with a percentage ending at `f`, from `k`. */
  lemma AmountTailAt(s: string, k: nat, e2: nat, f: nat, amount: string, pct: string)
    requires k + 2 <= |s| && s[k] == ':' && s[k + 1] == ' '
    requires AmountEnd(s, k + 2) == Some(e2) && PercentTail(s, e2) == Some((e2 + 2, f))
    requires s[k + 2..e2] == amount && s[e2 + 2..f] == pct
    ensures AmountTail(s, k) == Some((amount, pct))
  {
    RunEndExact(s, k + 1, k + 2, IsSpace);
  }

  /** The lazy condition group passes over the condition's characters, none of which is a colon. */
  lemma {:induction false} LabelScan(s: string, k: nat, c: nat)
    requires k <= c <= |s|
    requires forall m :: k <= m < c ==> LabelChar(s, m)
    ensures LabelEnd(s, k) == LabelEnd(s, c)
    decreases c - k
  {
    if k < c {
      LabelEndStep(s, k);
      LabelScan(s, k + 1, c);
    }
  }

  /** A character the condition group passes over: neither a colon nor a line terminator. */
  predicate LabelChar(s: string, m: nat) {
    m < |s| && s[m] != ':' && IsDot(s[m])
  }

  /** Past a character that is neither a colon nor a line terminator, the lazy group takes one more character. */
  lemma LabelEndStep(s: string, k: nat)
    requires k < |s| && LabelChar(s, k)
    ensures LabelEnd(s, k) == LabelEnd(s, k + 1)
  {
  }

  /**
   * A line that starts `- ` and a non-space, continues with characters the
   * condition group passes over up to `c`, and has the amount and the
   * percentage from `c` on, matches with the condition `s[2..c]`.
   */
  lemma BreakdownAt(s: string, c: nat)
    requires 3 <= c < |s| && s[0] == '-' && s[1] == ' ' && IsDot(s[2]) && !IsSpace(s[2])
    requires forall m :: 3 <= m < c ==> LabelChar(s, m)
    requires AmountTail(s, c).Some?
    ensures BreakdownMatch(s) == RowAt(s, 2, c)
  {
    RunEndExact(s, 1, 2, IsSpace);
    LabelScan(s, 3, c);
    assert LabelEnd(s, c) == Some(c);
    assert AfterDash(s, 0, 2) == RowAt(s, 2, c);
  }

  /**
   * A bullet written as `- condition: $amount (percentage...` is read back as
   * exactly that row, provided the condition is a trimmed, non-empty text
   * without colons or line terminators.
   */
  lemma BreakdownRoundTrip(condition: string, amount: string, whole: string, dotted: bool, fraction: string, rest: string)
    requires |condition| >= 1 && IsTrimmed(condition) && IsPlainLine(condition) && ':' !in condition
    requires IsAmount(amount) && |whole| >= 1 && IsDigits(whole) && IsDigits(fraction)
    ensures var pct := PercentText(whole, dotted, fraction);
            BreakdownMatch("- " + condition + ": " + amount + " (" + pct + rest)
              == Some(BreakdownRow(condition, amount, pct))
  {
    var pct := PercentText(whole, dotted, fraction);
    var tail := ": " + (amount + (" (" + (pct + rest)));
    var s := "- " + (condition + tail);
    assert "- " + condition + ": " + amount + " (" + pct + rest == s;
    assert s[..2] == "- " && s[2..2 + |condition|] == condition && s[2 + |condition|..] == tail;
    BreakdownReads(s, condition, amount, whole, dotted, fraction, rest);
  }

  /** The round trip, on a line known by where its pieces lie. */
  lemma BreakdownReads(s: string, condition: string, amount: string, whole: string, dotted: bool, fraction: string, rest: string)
    requires |condition| >= 1 && IsTrimmed(condition) && IsPlainLine(condition) && ':' !in condition
    requires IsAmount(amount) && |whole| >= 1 && IsDigits(whole) && IsDigits(fraction)
    requires 2 + |condition| <= |s| && s[..2] == "- " && s[2..2 + |condition|] == condition
    requires s[2 + |condition|..] == ": " + (amount + (" (" + (PercentText(whole, dotted, fraction) + rest)))
    ensures BreakdownMatch(s) == Some(BreakdownRow(condition, amount, PercentText(whole, dotted, fraction)))
  {
    var pct := PercentText(whole, dotted, fraction);
    var c := 2 + |condition|;
    TailReads(s, c, amount, whole, dotted, fraction, rest);
    ReadCondition(s, condition);
    BreakdownAt(s, c);
    PercentTextIsPercentage(whole, dotted, fraction);
    MakeRowOfTrimmed(condition, amount, pct);
  }

  /** A written percentage is a percentage. */
  lemma PercentTextIsPercentage(whole: string, dotted: bool, fraction: string)
    requires |whole| >= 1 && IsDigits(whole) && IsDigits(fraction)
    ensures IsPercentage(PercentText(whole, dotted, fraction))
  {
    var p := PercentText(whole, dotted, fraction);
    var n := |whole|;
    if dotted {
      assert p == whole + "." + fraction + "%";
      assert forall k :: 0 <= k < n ==> p[k] == whole[k];
      assert p[n] == '.';
      assert forall k :: n < k < |p| - 1 ==> p[k] == fraction[k - n - 1];
      forall m | 0 <= m < |p| - 1 && m != n
        ensures IsDigit(p[m])
      {
        if m < n {
          assert IsDigit(whole[m]);
        } else {
          assert IsDigit(fraction[m - n - 1]);
        }
      }
      assert forall m :: 0 <= m < |p| - 1 && m != n ==> p[m] != '.';
    } else {
      assert forall k :: 0 <= k < n ==> p[k] == whole[k];
    }
  }

  /** A letter inside the digits is not admitted. */
  lemma LetterNotInPercentage()
    ensures !IsPercentage("1x.y%")
  {
    var p := "1x.y%";
    assert !IsDigit(p[1]) && p[1] != '.';
  }

  /** Every percentage is written as digits, optionally a dot and more digits, and `%`. */
  lemma PercentageParts(p: string) returns (whole: string, dotted: bool, fraction: string)
    requires IsPercentage(p)
    ensures |whole| >= 1 && IsDigits(whole) && IsDigits(fraction)
    ensures p == PercentText(whole, dotted, fraction)
  {
    var body := p[..|p| - 1];
    if k :| 0 < k < |p| - 1 && p[k] == '.' {
      forall m | 0 < m < |p| - 1 && m != k
        ensures IsDigit(p[m])
      {
        assert p[m] != '.';
      }
      whole, dotted, fraction := p[..k], true, p[k + 1..|p| - 1];
      assert forall m :: 0 <= m < |whole| ==> whole[m] == p[m];
      assert forall m :: 0 <= m < |fraction| ==> fraction[m] == p[k + 1 + m];
      assert p == p[..k] + [p[k]] + p[k + 1..|p| - 1] + [p[|p| - 1]];
    } else {
      whole, dotted, fraction := body, false, "";
      assert forall m :: 0 <= m < |whole| ==> whole[m] == p[m];
      assert p == body + [p[|p| - 1]];
    }
  }

  /** Trimming leaves a trimmed condition, an amount and a percentage as they are. */
  lemma MakeRowOfTrimmed(condition: string, amount: string, pct: string)
    requires IsTrimmed(condition) && IsAmount(amount) && IsPercentage(pct)
    ensures MakeRow(condition, amount, pct) == BreakdownRow(condition, amount, pct)
  {
    TrimOfTrimmed(condition);
    AmountTrimmed(amount);
    PercentageTrimmed(pct);
  }

  /** `: $amount (percentage` from `c` is read back as that amount and percentage. */
  lemma TailReads(s: string, c: nat, amount: string, whole: string, dotted: bool, fraction: string, rest: string)
    requires IsAmount(amount) && |whole| >= 1 && IsDigits(whole) && IsDigits(fraction)
    requires c <= |s| && s[c..] == ": " + (amount + (" (" + (PercentText(whole, dotted, fraction) + rest)))
    ensures c < |s| && AmountTail(s, c) == Some((amount, PercentText(whole, dotted, fraction)))
  {
    var pct := PercentText(whole, dotted, fraction);
    var e2 := c + 2 + |amount|;
    var f := e2 + 2 + |pct|;
    ReadTail(s, c, amount, pct, rest);
    PercentReads(s, e2, whole, dotted, fraction);
    AmountEndAt(s, c + 2, e2);
    AmountTailAt(s, c, e2, f, amount, pct);
  }

  /** ` (percentage` from `i` is read back whole. */
  lemma PercentReads(s: string, i: nat, whole: string, dotted: bool, fraction: string)
    requires |whole| >= 1 && IsDigits(whole) && IsDigits(fraction)
    requires i + 2 + |PercentText(whole, dotted, fraction)| <= |s| && s[i] == ' ' && s[i + 1] == '('
    requires s[i + 2..i + 2 + |PercentText(whole, dotted, fraction)|] == PercentText(whole, dotted, fraction)
    ensures PercentTail(s, i) == Some((i + 2, i + 2 + |PercentText(whole, dotted, fraction)|))
  {
    PercentTextAt(s, i + 2, whole, dotted, fraction);
    PercentTailAt(s, i, i + 2 + |PercentText(whole, dotted, fraction)|);
  }

  /** The condition's characters, after `- `, are ones the condition group passes over. */
  lemma ReadCondition(s: string, condition: string)
    requires |condition| >= 1 && IsTrimmed(condition) && IsPlainLine(condition) && ':' !in condition
    requires 2 + |condition| <= |s| && s[..2] == "- " && s[2..2 + |condition|] == condition
    ensures s[0] == '-' && s[1] == ' ' && IsDot(s[2]) && !IsSpace(s[2])
    ensures forall m :: 3 <= m < 2 + |condition| ==> LabelChar(s, m)
  {
    assert s[0] == s[..2][0] && s[1] == s[..2][1];
    assert forall m :: 2 <= m < 2 + |condition| ==> s[m] == condition[m - 2];
  }

  /** Where the pieces of `: $amount (percentage` lie in a line that has them from `c`. */
  lemma ReadTail(s: string, c: nat, amount: string, pct: string, rest: string)
    requires c <= |s| && s[c..] == ": " + (amount + (" (" + (pct + rest)))
    ensures var e2 := c + 2 + |amount|;
            e2 + 2 + |pct| <= |s| && s[c] == ':' && s[c + 1] == ' ' && s[c + 2..e2] == amount
            && s[e2] == ' ' && s[e2 + 1] == '(' && s[e2 + 2..e2 + 2 + |pct|] == pct
  {
    var t := s[c..];
    var e2 := c + 2 + |amount|;
    assert |t| == 4 + |amount| + |pct| + |rest|;
    assert forall m :: 0 <= m < |t| ==> s[c + m] == t[m];
    assert t[0] == ':' && t[1] == ' ' && t[2 + |amount|] == ' ' && t[3 + |amount|] == '(';
    assert forall m :: 0 <= m < |amount| ==> t[2 + m] == amount[m];
    assert forall m :: 0 <= m < |pct| ==> t[4 + |amount| + m] == pct[m];
    assert s[c + 2..e2] == amount;
    assert s[e2 + 2..e2 + 2 + |pct|] == pct;
  }

  /** The line reads as a breakdown row: the `match` callback does not return `null`. */
  function HasRow(line: string): bool {
    BreakdownMatch(line).Some?
  }

  /** `rows` are the rows read from the lines that match, one for each, in line order. */
  predicate RowsOfLines(rows: seq<BreakdownRow>, lines: seq<string>) {
    var matched := Filter(lines, HasRow);
    && |rows| == |matched|
    && forall k :: 0 <= k < |rows| ==> BreakdownMatch(matched[k]) == Some(rows[k])
  }

  /** `map` then `filter(Boolean)` keeps one row per matching line, in line order. */
  lemma {:induction false} BreakdownRowsInOrder(lines: seq<string>)
    ensures RowsOfLines(BreakdownRows(lines), lines)
  {
    if |lines| > 0 {
      BreakdownRowsInOrder(lines[1..]);
      var matched := Filter(lines[1..], HasRow);
      assert Filter(lines, HasRow) == if HasRow(lines[0]) then [lines[0]] + matched else matched;
    }
  }

  // ---------------------------------------------------------------------------
  // The layout

  /** `content.includes("**Total") && content.includes("**Breakdown by")`. */
  predicate IsStructured(content: string) {
    Includes(content, TotalMarker) && Includes(content, BreakdownMarker)
  }

  /** A line holding a text with a non-space character is not blank. */
  lemma IncludesNotBlank(line: string, marker: string, m: nat)
    requires Includes(line, marker) && m < |marker| && !IsSpace(marker[m])
    ensures !IsBlank(line)
  {
    IncludesIff(line, marker);
    var k :| OccursAt(line, marker, k);
    assert line[k..k + |marker|][m] == line[k + m];
  }

  /** A marker without line breaks that occurs in the content occurs in one of its non-blank lines. */
  lemma MarkerLine(content: string, marker: string)
    requires Includes(content, marker) && '\n' !in marker && |marker| > 0 && marker[0] == '*'
    ensures FindIndex(ContentLines(content), marker) >= 0
  {
    var j := MarkerLineIndex(content, marker);
    FindIndexFound(ContentLines(content), marker, j);
  }

  /** A non-blank line holding the marker. */
  lemma MarkerLineIndex(content: string, marker: string) returns (j: nat)
    requires Includes(content, marker) && '\n' !in marker && |marker| > 0 && marker[0] == '*'
    ensures j < |ContentLines(content)| && Includes(ContentLines(content)[j], marker)
  {
    IncludesInPiece(content, '\n', marker);
    var pieces := Split(content, '\n');
    var i :| 0 <= i < |pieces| && Includes(pieces[i], marker);
    IncludesNotBlank(pieces[i], marker, 0);
    var lines := ContentLines(content);
    assert pieces[i] in lines;
    j :| j < |lines| && lines[j] == pieces[i];
  }

  /** `findIndex` finds something when some line holds the marker. */
  lemma FindIndexFound(lines: seq<string>, marker: string, j: nat)
    requires j < |lines| && Includes(lines[j], marker)
    ensures 0 <= FindIndex(lines, marker) <= j
  {
  }

  /** The lines of the breakdown slice, `lines.slice(breakdownStartIdx + 1, insightsStartIdx)`, that are bullets. */
  function BreakdownCandidates(lines: seq<string>): seq<string> {
    Filter(Slice(lines, FindIndex(lines, BreakdownMarker) + 1, FindIndex(lines, InsightsMarker)), IsBullet)
  }

  /**
   * How the structured branch reads the non-blank lines of an answer,
   * given the indices `findIndex` returned for the four markers (`t` for
   * `**Total`, `b` for `**Breakdown by`, `i` for `**Key Insights`, `r` for
   * `**Recommendations`, each -1 when no line holds it): the title from the
   * first line, the total from line `t`, and the three lists from the
   * `slice` calls between the marker lines.
   */
  function Layout(lines: seq<string>, t: nat, b: int, i: int, r: int): (rendering: Rendering)
    requires t < |lines|
    ensures rendering.Structured?
  {
    Structured(
      Title(lines[0]),
      TotalValue(lines[t]),
      BreakdownRows(Filter(Slice(lines, b + 1, i), IsBullet)),
      BulletItems(Slice(lines, i + 1, r)),
      BulletItems(Slice(lines, r + 1, |lines|)))
  }

  /** How `FormattedResponse` reads an answer. */
  function Format(content: string): (r: Rendering)
    ensures r.Verbatim? <==> !IsStructured(content)
    ensures r.Verbatim? ==> r.content == content
  {
    if !IsStructured(content) then Verbatim(content)
    else
      var lines := ContentLines(content);
      MarkerLine(content, TotalMarker);
      Layout(lines, FindIndex(lines, TotalMarker), FindIndex(lines, BreakdownMarker),
             FindIndex(lines, InsightsMarker), FindIndex(lines, RecommendationsMarker))
  }

  // ---------------------------------------------------------------------------
  // What `slice` takes

  /** Between two in-range indices, `slice` is the plain sub-sequence. */
  lemma SliceInRange<T>(xs: seq<T>, start: int, end: int)
    requires 0 <= start <= end <= |xs|
    ensures Slice(xs, start, end) == xs[start..end]
  {
  }

  /** An end of -1 (a marker `findIndex` did not find) stops before the last element. */
  lemma SliceToMissing<T>(xs: seq<T>, start: int)
    requires 0 <= start < |xs|
    ensures Slice(xs, start, -1) == xs[start..|xs| - 1]
  {
  }

  // ---------------------------------------------------------------------------
  // What `Format` produces

  /** No line break but `\n`: every line of such a text is a plain line. */
  predicate OnlyNewlineBreaks(content: string) {
    forall k :: 0 <= k < |content| && IsLineTerminator(content[k]) ==> content[k] == '\n'
  }

  /** The lines of a text whose only line break is `\n` hold no line terminator. */
  lemma ContentLinesPlain(content: string, j: nat)
    requires OnlyNewlineBreaks(content) && j < |ContentLines(content)|
    ensures IsPlainLine(ContentLines(content)[j])
  {
    var line := ContentLines(content)[j];
    var pieces := Split(content, '\n');
    assert line in pieces;
    var i :| 0 <= i < |pieces| && pieces[i] == line;
    SplitChars(content, '\n');
    forall k | 0 <= k < |line|
      ensures IsDot(line[k])
    {
      assert line[k] in pieces[i];
      CharOfContent(content, line[k]);
    }
  }

  /** A character of such a text other than `\n` is not a line terminator. */
  lemma CharOfContent(content: string, c: char)
    requires OnlyNewlineBreaks(content) && c in content && c != '\n'
    ensures IsDot(c)
  {
    var m :| 0 <= m < |content| && content[m] == c;
  }

  /** A structured answer is laid out from its lines at the indices of its marker lines; a `**Total` line always exists. */
  lemma FormatIsLayout(content: string)
    requires IsStructured(content)
    ensures var lines := ContentLines(content);
            var t := FindIndex(lines, TotalMarker);
            0 <= t
            && Format(content)
               == Layout(lines, t, FindIndex(lines, BreakdownMarker), FindIndex(lines, InsightsMarker), FindIndex(lines, RecommendationsMarker))
  {
    MarkerLine(content, TotalMarker);
  }

  /** The `**Breakdown by` marker holds no line break. */
  lemma BreakdownMarkerPlain()
    ensures '\n' !in BreakdownMarker && |BreakdownMarker| > 0 && BreakdownMarker[0] == '*'
  {
  }

  /** A structured answer always has a line holding `**Breakdown by`. */
  lemma BreakdownLineExists(content: string)
    requires IsStructured(content)
    ensures FindIndex(ContentLines(content), BreakdownMarker) >= 0
  {
    BreakdownMarkerPlain();
    MarkerLine(content, BreakdownMarker);
  }

  /** With `**Key Insights` after `**Breakdown by`, the rows are those of the bullet lines between them, in order. */
  lemma LayoutBreakdownBetween(lines: seq<string>, t: nat, b: int, i: int, r: int)
    requires t < |lines| && 0 <= b < i <= |lines|
    ensures RowsOfLines(Layout(lines, t, b, i, r).breakdown, Filter(lines[b + 1..i], IsBullet))
  {
    SliceInRange(lines, b + 1, i);
    BreakdownRowsInOrder(Filter(lines[b + 1..i], IsBullet));
  }

  /**
   * Without a `**Key Insights` line, `slice(b + 1, -1)` stops before the last
   * line: the candidates are the bullet lines after `**Breakdown by` but the
   * last line.
   */
  lemma LayoutBreakdownCandidatesToLast(lines: seq<string>, t: nat, b: int, r: int)
    requires t < |lines| && 0 <= b && b + 1 < |lines|
    ensures Layout(lines, t, b, -1, r).breakdown == BreakdownRows(Filter(lines[b + 1..|lines| - 1], IsBullet))
  {
    SliceToMissing(lines, b + 1);
  }

  /** Without `**Key Insights`, one row per matching dash line after `**Breakdown by` but the last line, in order. */
  lemma LayoutBreakdownToLast(lines: seq<string>, t: nat, b: int, r: int)
    requires t < |lines| && 0 <= b && b + 1 < |lines|
    ensures RowsOfLines(Layout(lines, t, b, -1, r).breakdown, Filter(lines[b + 1..|lines| - 1], IsBullet))
  {
    LayoutBreakdownCandidatesToLast(lines, t, b, r);
    BreakdownRowsInOrder(Filter(lines[b + 1..|lines| - 1], IsBullet));
  }

  /** With `**Key Insights` on or before the `**Breakdown by` line, there are no rows. */
  lemma LayoutBreakdownEmpty(lines: seq<string>, t: nat, b: int, i: int, r: int)
    requires t < |lines| && 0 <= i <= b
    ensures Layout(lines, t, b, i, r).breakdown == []
  {
  }

  /** With both markers in order, the insights are the bullet items between their lines. */
  lemma LayoutInsightsBetween(lines: seq<string>, t: nat, b: int, i: int, r: int)
    requires t < |lines| && 0 <= i < r <= |lines|
    ensures Layout(lines, t, b, i, r).insights == BulletItems(lines[i + 1..r])
  {
    SliceInRange(lines, i + 1, r);
  }

  /**
   * Without a `**Recommendations` line, `slice(i + 1, -1)` stops before the
   * last line: the insights are the bullet items after `**Key Insights` but
   * the last line.
   */
  lemma LayoutInsightsToLast(lines: seq<string>, t: nat, b: int, i: int)
    requires t < |lines| && 0 <= i && i + 1 < |lines|
    ensures Layout(lines, t, b, i, -1).insights == BulletItems(lines[i + 1..|lines| - 1])
  {
    SliceToMissing(lines, i + 1);
  }

  /** Without a `**Key Insights` line, the insights are the bullet items before `**Recommendations`. */
  lemma LayoutInsightsFromStart(lines: seq<string>, t: nat, b: int, r: int)
    requires t < |lines| && 0 <= r <= |lines|
    ensures Layout(lines, t, b, -1, r).insights == BulletItems(lines[..r])
  {
    SliceInRange(lines, 0, r);
  }

  /** With `**Recommendations` on or before the `**Key Insights` line, there are no insights. */
  lemma LayoutInsightsEmpty(lines: seq<string>, t: nat, b: int, i: int, r: int)
    requires t < |lines| && 0 <= r <= i
    ensures Layout(lines, t, b, i, r).insights == []
  {
  }

  /** The recommendations are the bullet items after the `**Recommendations` line. */
  lemma LayoutRecommendationsAfter(lines: seq<string>, t: nat, b: int, i: int, r: int)
    requires t < |lines| && 0 <= r < |lines|
    ensures Layout(lines, t, b, i, r).recommendations == BulletItems(lines[r + 1..])
  {
    SliceInRange(lines, r + 1, |lines|);
    assert lines[r + 1..|lines|] == lines[r + 1..];
  }

  /** Without a `**Recommendations` line, the recommendations are the bullet items of every line. */
  lemma LayoutRecommendationsAll(lines: seq<string>, t: nat, b: int, i: int)
    requires t < |lines|
    ensures Layout(lines, t, b, i, -1).recommendations == BulletItems(lines)
  {
    SliceInRange(lines, 0, |lines|);
    assert lines[0..|lines|] == lines;
  }

  /** An answer without a `**Recommendations` line lists the bullet items of all its lines as recommendations. */
  lemma FormatRecommendationsAll(content: string)
    requires IsStructured(content)
    requires FindIndex(ContentLines(content), RecommendationsMarker) == -1
    ensures Format(content).recommendations == BulletItems(ContentLines(content))
  {
    var lines := ContentLines(content);
    FormatIsLayout(content);
    LayoutRecommendationsAll(lines, FindIndex(lines, TotalMarker), FindIndex(lines, BreakdownMarker), FindIndex(lines, InsightsMarker));
  }

  /**
   * An answer without a `**Key Insights` line reads its rows from the bullets
   * after `**Breakdown by` but the last line (one row per matching line, in
   * order, by `BreakdownRowsInOrder`).
   */
  lemma FormatBreakdownToLast(content: string)
    requires IsStructured(content)
    requires var lines := ContentLines(content);
             FindIndex(lines, InsightsMarker) == -1 && FindIndex(lines, BreakdownMarker) + 1 < |lines|
    ensures var lines := ContentLines(content);
            var b := FindIndex(lines, BreakdownMarker);
            0 <= b && Format(content).breakdown == BreakdownRows(Filter(lines[b + 1..|lines| - 1], IsBullet))
  {
    var lines := ContentLines(content);
    FormatIsLayout(content);
    BreakdownLineExists(content);
    LayoutBreakdownCandidatesToLast(lines, FindIndex(lines, TotalMarker), FindIndex(lines, BreakdownMarker),
                                    FindIndex(lines, RecommendationsMarker));
  }

  /** With `**Key Insights` before `**Recommendations`, the insights are the bullet items between their lines. */
  lemma FormatInsightsBetween(content: string)
    requires IsStructured(content)
    requires var lines := ContentLines(content);
             0 <= FindIndex(lines, InsightsMarker) < FindIndex(lines, RecommendationsMarker)
    ensures var lines := ContentLines(content);
            Format(content).insights == BulletItems(lines[FindIndex(lines, InsightsMarker) + 1..FindIndex(lines, RecommendationsMarker)])
  {
    var lines := ContentLines(content);
    FormatIsLayout(content);
    LayoutInsightsBetween(lines, FindIndex(lines, TotalMarker), FindIndex(lines, BreakdownMarker),
                          FindIndex(lines, InsightsMarker), FindIndex(lines, RecommendationsMarker));
  }

  /** The title is the first line without the emoji and the white space after it. */
  lemma FormatTitle(content: string, pad: string, text: string)
    requires IsStructured(content) && IsBlank(pad) && (text == [] || !IsSpace(text[0]))
    requires |ContentLines(content)| > 0 && ContentLines(content)[0] == [TitleEmoji] + pad + text
    ensures Format(content).Structured? && Format(content).title == text
  {
    TitleFacts(pad, text, ContentLines(content)[0]);
  }

  /**
   * On a text whose only line break is `\n`, the total is read from the first
   * line holding `**Total` as a reader of that line would state it.
   */
  lemma FormatTotal(content: string)
    requires IsStructured(content) && OnlyNewlineBreaks(content)
    ensures var lines := ContentLines(content);
            var t := FindIndex(lines, TotalMarker);
            0 <= t < |lines| && Format(content).totalValue == PlainTotal(lines[t])
  {
    var lines := ContentLines(content);
    MarkerLine(content, TotalMarker);
    var t := FindIndex(lines, TotalMarker);
    ContentLinesPlain(content, t);
    TotalValuePlain(lines[t]);
  }

  /** There are never more breakdown rows than bullet lines in the breakdown slice. */
  lemma FormatBreakdownBound(content: string)
    requires IsStructured(content)
    ensures |Format(content).breakdown| <= |BreakdownCandidates(ContentLines(content))|
  {
    FormatIsLayout(content);
  }

  /**
   * The slice between the line holding `first` and the line holding `next`:
   * the lines strictly between them when both are found in that order; when
   * `next` is missing, its index -1 makes the slice end before the last line.
   * The breakdown slice (`**Breakdown by` to `**Key Insights`) and the
   * insights slice (`**Key Insights` to `**Recommendations`) are both of this
   * kind.
   */
  lemma BetweenMarkers(lines: seq<string>, first: string, next: string)
    ensures var i := FindIndex(lines, first);
            var r := FindIndex(lines, next);
            (0 <= i < r ==> Slice(lines, i + 1, r) == lines[i + 1..r])
            && (0 <= i && r == -1 && i + 1 < |lines| ==> Slice(lines, i + 1, r) == lines[i + 1..|lines| - 1])
  {
    var i := FindIndex(lines, first);
    var r := FindIndex(lines, next);
    if 0 <= i < r {
      SliceInRange(lines, i + 1, r);
    }
    if 0 <= i && r == -1 && i + 1 < |lines| {
      SliceToMissing(lines, i + 1);
    }
  }

  /**
   * The slice after the line holding `last`; when `last` is missing, the
   * slice starts at line 0 and takes every line.
   */
  lemma AfterMarker(lines: seq<string>, last: string)
    ensures var r := FindIndex(lines, last);
            Slice(lines, r + 1, |lines|) == lines[r + 1..]
            && (r == -1 ==> Slice(lines, r + 1, |lines|) == lines)
  {
    var r := FindIndex(lines, last);
    SliceInRange(lines, r + 1, |lines|);
    assert lines[r + 1..|lines|] == lines[r + 1..];
  }
}
