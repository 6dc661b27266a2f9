# Neurika core logic in Dafny

Neurika is a data-analysis assistant. A user uploads a CSV file, gets a
profile of its columns, and chats with an assistant ("Eurika") about the
data. Admins manage a team whose roles live in a `user_roles` table. This
project models the deterministic logic under the user interface and the
backend calls, and proves properties about it:

- **Dataset profile** (`DataDashboard`). This is the `parseData` routine of
  the dashboard. It covers:
  - the header line and at most 100 data lines;
  - quote stripping and positional alignment of values to headers;
  - the strict 70% numeric rule;
  - min, max, average and unique counts;
  - the value counts and the top five values of a categorical column.
- **Dataset overview of the chat backend** (`ChatWithEurika`). This is
  `analyzeCSV` (80% numeric rule, ten-value categorical cut, missing counts,
  the first three distinct samples, the conditional summary lines). It also
  covers the handler's rule for which messages go to the completion call
  and when the analysis is returned.
- **Structured answer reader** (`FormattedResponse`). It covers:
  - detection of the structured format;
  - the title;
  - the total, read through a backtracking matcher that follows the JavaScript regular expression;
  - the section slices, with the `-1` cases of `findIndex`;
  - the breakdown rows, read through a second such matcher;
  - the bullet lists.
- **Q&A pair form** (`QAManagement`). It covers keyword parsing, save
  validation, the payload (empty contents stored as null), insert versus
  update, and the form state that edit, save and reset change. It proves
  the keyword round trip through the edit form.
- **Team handlers** (`TeamRoles`, `RemoveTeamMember`, `UpdateMemberRole`,
  `ListTeamMembers`, `SendTeamInvitation`). These cover the shared
  401/401/403 guard chain over an in-memory `user_roles` table and each
  handler's own checks. Removal and role update are proved to keep an
  admin in the table.
- **Smaller components**:
  - the integration search filter and badge mapping (`Integrations`);
  - the upload type check, storage path and step order (`FileUpload`);
  - the chat send guard, the append-only message list, session creation
    and message loading (`ChatInterface`);
  - session-row defaults and the click guard of the history list
    (`ChatHistory`).

Shared modules:

- `Wrappers` provides `Option`.
- `Text` provides the JavaScript string operations the core uses: `trim`,
  `split`, `join`, `includes`, ASCII `toLowerCase` and decimal rendering of
  numbers.
- `Seqs` provides the insertion-ordered distinct elements of a `Set`,
  `filter`, and occurrence counts.

Backend calls, the clock, random tokens and number parsing are
parameters:

- The signed-in user is `Option<string>`.
- Database and storage outcomes are booleans, or `Option` results.
- `parseFloat` and `Number` are functions passed in.
- `Date.now()` and `new Date()` are plain values.

Each handler works on one snapshot of its tables. A table that a handler
changes is a class whose methods state the new table.

Points of the code that the model keeps as written:

- The structured format is detected by `**Total` together with
  `**Breakdown by` only. `**Average` plays no part.
- `totalRows` counts every line after the header, not only the 100 lines
  that are profiled.
- The order of ties in `topValues` follows `Object.entries`, so the model
  leaves it open.
- `update-member-role` has no last-admin count. It only refuses an admin's
  demotion of their own admin row. The model proves that an admin still
  remains after a role update.
- The admin check uses `.maybeSingle()`. A caller with two admin rows
  therefore fails it with 403, as does a failed role query.

## Model

| member | source | states |
|---|---|---|
| DataDashboard.ParseData | src/components/DataDashboard.tsx:38-110 | no stats exactly when the trimmed text has fewer than two lines; otherwise totalRows is every line after the header, totalColumns and columns are the headers, the two kind lists and the per-column stats are those of the profiled rows, and the sample is the first min(5, rows) parsed rows |
| DataDashboard.CleanFieldUnquotes | src/components/DataDashboard.tsx:47 | a quoted trimmed field is read back without its quotes |
| DataDashboard.CleanFieldKeepsPlain | src/components/DataDashboard.tsx:47 | a trimmed field with no quote at either end is kept unchanged |
| DataDashboard.BuildRow | src/components/DataDashboard.tsx:50-53 | a parsed row has exactly the headers as keys |
| DataDashboard.RowByPosition | src/components/DataDashboard.tsx:49-53 | the header at position i gets the field at position i, or '' when the line is short, unless a later header has the same name |
| DataDashboard.ProfiledRows | src/components/DataDashboard.tsx:48-55 | min(100, lines - 1) rows are profiled, row i being data line i + 1 aligned to the headers |
| DataDashboard.SplitFields | src/components/DataDashboard.tsx:47-49 | every line, even an empty one, has at least one field |
| DataDashboard.SplitFieldsRoundTrip | src/components/DataDashboard.tsx:47-49 | trimmed fields without commas or surrounding quotes, joined by commas, split back into exactly those fields |
| DataDashboard.ColumnValues | src/components/DataDashboard.tsx:63 | at most one value per row, and a value is listed exactly when it is non-empty and some row holds it in that column |
| DataDashboard.NumericValues | src/components/DataDashboard.tsx:64 | never more numeric values than values |
| DataDashboard.NumericValuesInOrder | src/components/DataDashboard.tsx:64 | one number per value that parses, none for the others, each the parse of its value, in column order |
| DataDashboard.ColumnsPartition | src/components/DataDashboard.tsx:62-93 | the numeric and categorical lists partition the headers: lengths add up, each keeps header order, and a header is in a list exactly when its column is of that kind |
| DataDashboard.ColumnsOfKindMembers | src/components/DataDashboard.tsx:62-78 | a header is in the list of a kind exactly when it is a header whose column is of that kind |
| DataDashboard.ColumnsOfKindSnoc | src/components/DataDashboard.tsx:68-78 | classifying one more header appends it to the list of its kind and leaves the other list unchanged |
| DataDashboard.MinOf | src/components/DataDashboard.tsx:71 | the minimum is one of the values and no value is smaller |
| DataDashboard.MaxOf | src/components/DataDashboard.tsx:72 | the maximum is one of the values and no value is larger |
| DataDashboard.AverageBetween | src/components/DataDashboard.tsx:71-73 | a numeric column's average lies between its minimum and maximum |
| DataDashboard.CountValues | src/components/DataDashboard.tsx:79-82 | the reduce's counts are keyed by exactly the values, each count being the value's number of occurrences |
| DataDashboard.CountsAreCountMap | src/components/DataDashboard.tsx:79-82 | counts keyed by exactly the values with their occurrence numbers are the value-count map the top list is built from |
| DataDashboard.MaxCountIndex | src/components/DataDashboard.tsx:83-84 | picks a candidate whose count no other candidate exceeds |
| DataDashboard.TopValues | src/components/DataDashboard.tsx:83-86 | the k most frequent candidates by non-increasing count, each with its count and none twice, with no candidate left out counted higher than a listed one |
| DataDashboard.TopOfColumn | src/components/DataDashboard.tsx:79-86 | a categorical column's top list holds min(5, distinct values) entries, each with its occurrence count, sorted by count, dominating every value left out |
| DataDashboard.TopCountsBounded | src/components/DataDashboard.tsx:79-86 | the counts of a top list add up to at most the number of non-empty values |
| DataDashboard.ColumnStatFacts | src/components/DataDashboard.tsx:63-92 | numeric exactly under the strict 70% rule, so an empty column is categorical; the unique count is the number of distinct values; min <= avg <= max; a categorical column carries its top list |
| DataDashboard.ColumnStatistics | src/components/DataDashboard.tsx:63-92 | one turn of the loop returns the column's kind and its statistics |
| DataDashboard.AnalyzeColumns | src/components/DataDashboard.tsx:58-94 | the forEach loop gives every header an entry in columnStats holding its column's statistics, and builds the two kind lists in header order |
| ChatWithEurika.AnalyzeCSV | supabase/functions/chat-with-eurika/index.ts:178-225 | the loop-built analysis equals the analysis of the text |
| ChatWithEurika.Headers | supabase/functions/chat-with-eurika/index.ts:180 | there is always at least one header, and every header is trimmed |
| ChatWithEurika.AnalysisCounts | supabase/functions/chat-with-eurika/index.ts:179-198 | rowCount is the number of lines after the first, columnCount the header count, and there is one entry per header in header order |
| ChatWithEurika.PresentValues | supabase/functions/chat-with-eurika/index.ts:185 | never more present values than rows |
| ChatWithEurika.PresentValuesMembers | supabase/functions/chat-with-eurika/index.ts:185 | a value is present exactly when some row's trimmed field at that index is non-empty and equal to it |
| ChatWithEurika.AnalyzeColumns | supabase/functions/chat-with-eurika/index.ts:184-198 | one entry per header, entry i describing column i |
| ChatWithEurika.ColumnFacts | supabase/functions/chat-with-eurika/index.ts:185-194 | missing count plus present count is the row count; numeric under the strict 80% rule, else categorical below ten distinct values, else text; the unique count is at most the present count |
| ChatWithEurika.SampleFacts | supabase/functions/chat-with-eurika/index.ts:187-196 | at most three distinct samples, the first-seen values, in first-seen order |
| ChatWithEurika.Insights | supabase/functions/chat-with-eurika/index.ts:200-217 | the pushed insight lines equal the summary lines |
| ChatWithEurika.SummaryShape | supabase/functions/chat-with-eurika/index.ts:202-217 | the summary is the rows line, then the numeric, categorical and missing lines in that order, each present exactly when its list is non-empty |
| ChatWithEurika.SummaryFirstLine | supabase/functions/chat-with-eurika/index.ts:202 | the summary always starts with the rows/columns line |
| ChatWithEurika.NamesOfKindInOrder | supabase/functions/chat-with-eurika/index.ts:204-211 | the names listed for a kind are those of the columns of that kind, one each, in column order |
| ChatWithEurika.NamesOfKindNonEmpty | supabase/functions/chat-with-eurika/index.ts:204-211 | the list of a kind is non-empty exactly when some column is of that kind |
| ChatWithEurika.MissingColumns | supabase/functions/chat-with-eurika/index.ts:214 | a column is listed exactly when it is an analysed column with missing values, and the list keeps column order |
| ChatWithEurika.MissingColumnsNonEmpty | supabase/functions/chat-with-eurika/index.ts:214-217 | the missing-data list is non-empty exactly when some column has missing values |
| ChatWithEurika.SummaryRoundTrip | supabase/functions/chat-with-eurika/index.ts:219-220 | splitting the summary at line breaks gives back the insight lines |
| ChatWithEurika.DatasetContextHoldsCsv | supabase/functions/chat-with-eurika/index.ts:263-276 | the dataset message contains the whole CSV text right after its introduction |
| ChatWithEurika.OutgoingMessages | supabase/functions/chat-with-eurika/index.ts:250-295 | the personality prompt first, then the dataset message exactly when a CSV text is present, then the conversation unchanged |
| ChatWithEurika.AttachedAnalysis | supabase/functions/chat-with-eurika/index.ts:251-260 | an analysis is returned exactly when a CSV text is present and it is the first message |
| ChatWithEurika.HandleChat | supabase/functions/chat-with-eurika/index.ts:227-335 | preflight, 500 on a bad body or a missing key; for the completion call, its own status with "Failed to get response from OpenAI" on a non-2xx reply, 500 with the thrown error's message when the call throws, 500 with the parse error on an unreadable reply body, and otherwise the completion with the attached analysis |
| FormattedResponse.Format | src/components/FormattedResponse.tsx:10-66 | verbatim exactly when the text lacks `**Total` or `**Breakdown by`, and then unchanged |
| FormattedResponse.ContentLines | src/components/FormattedResponse.tsx:25 | the lines are the `\n`-pieces that are not blank |
| FormattedResponse.FindIndex | src/components/FormattedResponse.tsx:37-39 | the first line containing the marker, or -1 when none does |
| FormattedResponse.SliceIndex | src/components/FormattedResponse.tsx:42 | slice indices are clamped to the length, with in-range indices kept |
| FormattedResponse.TitleFacts | src/components/FormattedResponse.tsx:28-29 | the emoji and the white space after it are removed, and a line without the emoji is kept |
| FormattedResponse.FormatTitle | src/components/FormattedResponse.tsx:27-29 | the rendered title is the first content line without the emoji prefix |
| FormattedResponse.TotalValuePlain | src/components/FormattedResponse.tsx:33-34 | the lazy/greedy matcher yields the trimmed text after the first `**:` following `**Total`, or "" when there is none |
| FormattedResponse.FormatTotal | src/components/FormattedResponse.tsx:31-34 | the total is read from the first `**Total` line, which always exists |
| FormattedResponse.BulletTextIsTrim | src/components/FormattedResponse.tsx:61 | a bullet's item is the trimmed text after its dash |
| FormattedResponse.BulletRoundTrip | src/components/FormattedResponse.tsx:61 | `- item` reads back as the trimmed item |
| FormattedResponse.BulletItemsTrimmed | src/components/FormattedResponse.tsx:59-66 | the items are the dash lines of the slice, in order, each trimmed after the dash |
| FormattedResponse.BreakdownMatch | src/components/FormattedResponse.tsx:47 | a matched row has a `$` amount and a percentage of the exact shape `\d+\.?\d*%` |
| FormattedResponse.PercentTextIsPercentage | src/components/FormattedResponse.tsx:47 | digits, optionally a dot and more digits, then `%`, always make a percentage |
| FormattedResponse.PercentageParts | src/components/FormattedResponse.tsx:47 | every percentage is digits, optionally a dot and more digits, then `%`, and nothing else |
| FormattedResponse.LetterNotInPercentage | src/components/FormattedResponse.tsx:47 | a letter among the digits (`1x.y%`) is not a percentage |
| FormattedResponse.AmountTrimmed | src/components/FormattedResponse.tsx:47-51 | `trim` keeps a matched amount as it is |
| FormattedResponse.PercentageTrimmed | src/components/FormattedResponse.tsx:47-51 | `trim` keeps a matched percentage as it is |
| FormattedResponse.BreakdownReads | src/components/FormattedResponse.tsx:45-54 | a line `- label: $amount (pct...` is read as exactly that row |
| FormattedResponse.BreakdownRoundTrip | src/components/FormattedResponse.tsx:45-54 | writing a row in the breakdown format and reading it gives the row back |
| FormattedResponse.BreakdownRows | src/components/FormattedResponse.tsx:45-56 | at most one row per candidate; every row comes from a matching line and every matching line gives a row |
| FormattedResponse.BreakdownRowsInOrder | src/components/FormattedResponse.tsx:45-56 | exactly one row per matching line, read from that line, in line order; lines that do not match give none |
| FormattedResponse.FormatIsLayout | src/components/FormattedResponse.tsx:25-39 | a structured answer always has a `**Total` line, and it is read from its lines at the indices `findIndex` gives for the four markers |
| FormattedResponse.BreakdownLineExists | src/components/FormattedResponse.tsx:37 | a structured answer always has a `**Breakdown by` line |
| FormattedResponse.LayoutBreakdownBetween | src/components/FormattedResponse.tsx:41-56 | with `**Key Insights` after `**Breakdown by`, one row per matching dash line strictly between them, in order |
| FormattedResponse.LayoutBreakdownCandidatesToLast | src/components/FormattedResponse.tsx:38-43 | without `**Key Insights` (index -1), `slice(b + 1, -1)` takes the dash lines after `**Breakdown by` but the last line |
| FormattedResponse.LayoutBreakdownToLast | src/components/FormattedResponse.tsx:38-56 | without `**Key Insights` (index -1), the rows come from the dash lines after `**Breakdown by` except the last line, in order |
| FormattedResponse.LayoutBreakdownEmpty | src/components/FormattedResponse.tsx:41-43 | with `**Key Insights` on or before the `**Breakdown by` line, there are no rows |
| FormattedResponse.FormatBreakdownToLast | src/components/FormattedResponse.tsx:36-56 | an answer without `**Key Insights` reads its rows from the dash lines after `**Breakdown by`, leaving out the last line |
| FormattedResponse.LayoutInsightsBetween | src/components/FormattedResponse.tsx:58-61 | with `**Key Insights` before `**Recommendations`, the insights are the bullet items strictly between them |
| FormattedResponse.FormatInsightsBetween | src/components/FormattedResponse.tsx:36-61 | an answer with both markers in that order lists as insights the bullet items strictly between their lines |
| FormattedResponse.LayoutInsightsToLast | src/components/FormattedResponse.tsx:39-61 | without `**Recommendations` (index -1), the insights are the bullet items after `**Key Insights` except the last line |
| FormattedResponse.LayoutInsightsFromStart | src/components/FormattedResponse.tsx:38-61 | without `**Key Insights` (index -1), the insights are the bullet items before `**Recommendations`, from the first line |
| FormattedResponse.LayoutInsightsEmpty | src/components/FormattedResponse.tsx:58-61 | with `**Recommendations` on or before the `**Key Insights` line, there are no insights |
| FormattedResponse.LayoutRecommendationsAfter | src/components/FormattedResponse.tsx:63-66 | the recommendations are the bullet items after the `**Recommendations` line |
| FormattedResponse.LayoutRecommendationsAll | src/components/FormattedResponse.tsx:39-66 | without `**Recommendations` (index -1), the recommendations are the bullet items of every line |
| FormattedResponse.FormatRecommendationsAll | src/components/FormattedResponse.tsx:25-66 | an answer without `**Recommendations` lists the bullet items of all its lines as recommendations |
| FormattedResponse.FormatBreakdownBound | src/components/FormattedResponse.tsx:42-56 | never more breakdown rows than dash lines in the breakdown slice |
| FormattedResponse.BetweenMarkers | src/components/FormattedResponse.tsx:38-43 | the slice holds the lines strictly between the two marker lines; a missing closing marker (-1) drops the last line |
| FormattedResponse.AfterMarker | src/components/FormattedResponse.tsx:39-66 | the recommendations slice is every line after the marker; a missing marker (-1) makes it every line |
| QAManagement.Keywords | src/components/QAManagement.tsx:66-69 | every saved keyword is trimmed, non-empty and comma-free |
| QAManagement.TrimEach | src/components/QAManagement.tsx:68 | each piece trimmed, in order |
| QAManagement.KeywordsEmpty | src/components/QAManagement.tsx:66-71 | the keyword list is empty exactly when every comma piece is blank |
| QAManagement.KeywordsRoundTrip | src/components/QAManagement.tsx:120-127 | re-parsing keywords joined with ", " gives them back |
| QAManagement.NullIfEmpty | src/components/QAManagement.tsx:85-87 | null exactly for the empty string, otherwise the text unchanged |
| QAManagement.EmptyIfNull | src/components/QAManagement.tsx:124-126 | null shows as "", and saving it again gives null back |
| QAManagement.PayloadContents | src/components/QAManagement.tsx:83-91 | empty contents are stored as null and non-empty ones unchanged |
| QAManagement.Decide | src/components/QAManagement.tsx:66-106 | refused exactly when the question or the keyword list is empty; fails without a user; otherwise an update of editingId exactly when it is set, else an insert |
| QAManagement.EditThenSave | src/components/QAManagement.tsx:93-127 | editing a pair and saving it unchanged updates the same pair with the same question, keywords and switch |
| QAManagement.QAForm.Reset | src/components/QAManagement.tsx:152-163 | empty fields, switch on, nothing edited, form hidden |
| QAManagement.QAForm.Edit | src/components/QAManagement.tsx:120-131 | the pair's fields fill the form, it is being edited, and the form is shown |
| QAManagement.QAForm.Save | src/components/QAManagement.tsx:64-118 | issues Decide's write; reloads and resets exactly when a write is issued and succeeds; otherwise the state is unchanged |
| TeamRoles.AdminGate | supabase/functions/remove-team-member/index.ts:26-64 | 401 exactly without a header or a user, 403 exactly when the role query fails or the caller fails the single-admin-row check, otherwise continue |
| TeamRoles.AdminRowsOf | supabase/functions/remove-team-member/index.ts:51-56 | exactly the caller's admin rows |
| TeamRoles.AdminCheckRow | supabase/functions/remove-team-member/index.ts:51-64 | a caller who passes the check holds an admin row |
| TeamRoles.RowWithId | supabase/functions/remove-team-member/index.ts:76-80 | the row with that id, or none exactly when no row has it |
| TeamRoles.AdminRows | supabase/functions/remove-team-member/index.ts:91-94 | exactly the admin rows of the table |
| TeamRoles.WithoutId | supabase/functions/remove-team-member/index.ts:114-117 | exactly the rows whose id differs |
| TeamRoles.WithRole | supabase/functions/update-member-role/index.ts:91-96 | same length and ids; the row with that id gets the role and every other row is unchanged |
| TeamRoles.UserRolesTable.DeleteById | supabase/functions/remove-team-member/index.ts:114-117 | the table loses the row with that id and ids stay unique |
| TeamRoles.UserRolesTable.SetRoleById | supabase/functions/update-member-role/index.ts:91-96 | the row with that id gets the role and ids stay unique |
| TeamRoles.WithoutIdUnique | supabase/functions/remove-team-member/index.ts:114-117 | deleting keeps the ids unique |
| TeamRoles.DeleteKeepsAdmin | supabase/functions/remove-team-member/index.ts:82-117 | deleting a row that is not the caller's keeps an admin |
| TeamRoles.SetRoleKeepsAdmin | supabase/functions/update-member-role/index.ts:83-96 | a role update that does not demote the caller's admin row keeps an admin |
| RemoveTeamMember.Handle | supabase/functions/remove-team-member/index.ts:26-138 | the gate, then 400 without memberId, for the caller's own row and for the last admin's row, then 200 or 500 by the delete's outcome; success deletes exactly that id and keeps an admin, anything else changes nothing |
| RemoveTeamMember.TargetNotCallers | supabase/functions/remove-team-member/index.ts:76-87 | when the row found is not the caller's, no row with that id is |
| UpdateMemberRole.Handle | supabase/functions/update-member-role/index.ts:27-118 | the gate, then 400 without memberId or newRole and for a self-demotion, then 200 exactly when the update succeeds on an existing row; success changes only that row's role and keeps an admin, anything else changes nothing |
| UpdateMemberRole.NotSelfDemotion | supabase/functions/update-member-role/index.ts:83-88 | without a self-demotion, the caller's admin row with that id keeps the admin role |
| UpdateMemberRole.WithRoleMissing | supabase/functions/update-member-role/index.ts:91-104 | an update of an id that no row has changes nothing |
| ListTeamMembers.ViewerRows | supabase/functions/list-team-members/index.ts:47-51 | exactly the caller's admin and editor rows |
| ListTeamMembers.ViewerRowsIff | supabase/functions/list-team-members/index.ts:53-86 | no viewer rows exactly when the caller only reads; an admin viewer exactly when the caller has an admin row |
| ListTeamMembers.Handle | supabase/functions/list-team-members/index.ts:22-109 | 401, 403 for readers and when the role query fails, 500 on a failed members fetch; a 200 listing exactly when every guard passes, with every member, and invitations only for an admin |
| ListTeamMembers.FailedInvitationsFetch | supabase/functions/list-team-members/index.ts:86-109 | a failed invitations fetch still lists the members, with no invitations |
| SendTeamInvitation.DaysLater | supabase/functions/send-team-invitation/index.ts:84-85 | the same local time on the day `days` later |
| SendTeamInvitation.InvitationsTable.Insert | supabase/functions/send-team-invitation/index.ts:88-99 | the row is appended |
| SendTeamInvitation.Handle | supabase/functions/send-team-invitation/index.ts:31-174 | the gate, 400 without email or role, 500 when the insert fails; otherwise the invitation by the caller, expiring seven days on, is inserted and the email attempted, with 200 unless the email call throws, which gives 500 with the invitation kept; an error the email call returns is only logged |
| Integrations.BadgeFor | src/pages/Integrations.tsx:45-56 | secondary exactly for Integration, outline exactly for MCP, default for anything else |
| Integrations.FilterIntegrations | src/pages/Integrations.tsx:62-69 | every item for an empty query; otherwise exactly the items whose lower-cased name or description contains the lower-cased query |
| Integrations.MatchesIgnoresQueryCase | src/pages/Integrations.tsx:62-69 | a query and its lower-cased form match the same items |
| Integrations.FilterKeepsOrder | src/pages/Integrations.tsx:62-69 | the result is an order-preserving subsequence of the list |
| Integrations.EmptyFilter | src/pages/Integrations.tsx:64-68 | a filtered list is empty exactly when no item matches |
| Integrations.NoResultsIff | src/pages/Integrations.tsx:299-308 | "no results" exactly when no catalogue item matches a non-empty query, or the catalogue is empty |
| FileUpload.CsvNameAccepted | src/components/FileUpload.tsx:21-34 | a file whose name ends in `.csv` passes the type check whatever its MIME type |
| FileUpload.StoragePath | src/components/FileUpload.tsx:43 | the path starts with the user id and "/" and ends with the file name |
| FileUpload.PathParts | src/components/FileUpload.tsx:43 | the path splits back into the user id, a stamp that reads back as the time, and the file name |
| FileUpload.Uploader.HandleFileUpload | src/components/FileUpload.tsx:16-80 | no file or a rejected type changes nothing; an accepted file runs the upload steps, then clears `uploading` and the input |
| FileUpload.StepOrder | src/components/FileUpload.tsx:39-70 | the row is inserted only after a successful upload to its path, the callback fires only after both, and the path starts with the user id |
| ChatInterface.OnProps | src/components/ChatInterface.tsx:34-41 | a session prop is loaded; otherwise a session is created exactly when there is a file and no session |
| ChatInterface.SessionTitle | src/components/ChatInterface.tsx:82 | "Analysis: " + name when a name is given, else "New Analysis" |
| ChatInterface.Defined | src/components/ChatInterface.tsx:62-64 | an empty field is dropped and a non-empty one kept |
| ChatInterface.LoadedMessages | src/components/ChatInterface.tsx:57-66 | one message per row, in order |
| ChatInterface.LoadedMessageFields | src/components/ChatInterface.tsx:58-65 | a message keeps its row's id, role and content, and each analysis field exactly when it is non-empty |
| ChatInterface.SendAppends | src/components/ChatInterface.tsx:111-153 | a send only appends: the user's message, then the assistant's exactly when the analysis replied |
| ChatInterface.StoredAppends | src/components/ChatInterface.tsx:121-168 | a send stores rows only by appending, all of its session and user: none without a user, else the input, then the reply's content exactly when the analysis replied |
| ChatInterface.Chat.HandleSend | src/components/ChatInterface.tsx:108-175 | a blank input or no session changes nothing; otherwise the input is cleared, messages and stored rows grow as a send says, and loading ends false |
| ChatInterface.Chat.CreateSession | src/components/ChatInterface.tsx:77-106 | only a successful insert adds the session, with its title, and the panel then holds it |
| ChatInterface.Chat.LoadSessionMessages | src/components/ChatInterface.tsx:47-75 | loaded rows replace the messages, and a failed load keeps them |
| ChatHistory.ToSession | src/components/ChatHistory.tsx:50-57 | "Untitled Session" for an empty title, the first count or 0, the file name or null |
| ChatHistory.Sessions | src/components/ChatHistory.tsx:50-57 | one session per row, in order |
| ChatHistory.TitlesNonEmpty | src/components/ChatHistory.tsx:52 | every listed session has a non-empty title |
| ChatHistory.Click | src/components/ChatHistory.tsx:99-103 | selects exactly when the callback, file id and file name are all present |
| ChatHistory.History.FetchSessions | src/components/ChatHistory.tsx:30-69 | fetched rows replace the list, a missing user or an error keeps it, and loading ends false |

## Left out

- Number parsing. `parseFloat` and `Number` are function parameters, and
  the min, max and average use exact `real` arithmetic. IEEE rounding is not
  modelled, so the 70% and 80% thresholds are exact (`10k > 7n`, `5k > 4n`),
  while the source's floating-point product can differ at the boundary.
- DataDashboard.TopValues: the order among equal counts is left open. The
  source's order depends on `Object.entries` key ordering.
- Integrations.Matches: `toLowerCase` is modelled for ASCII letters only.
- DataDashboard.BuildRow, DataDashboard.CountValues, DataDashboard.TopValues:
  the source keeps rows and counts in plain `{}` objects. A header or value
  such as `__proto__`, `constructor` or `toString` then reads or writes an
  inherited property instead of an own key. The model uses maps, so it
  describes the behaviour for every other key.
- FormattedResponse.FormatTotal: the plain reading of the total is proved
  only for text whose sole line terminator is `\n`. The matcher itself
  also follows the other JavaScript line terminators.
- FormattedResponse: the `📊` emoji is one opaque code point, and the
  rendering of the cards and table is not modelled.
- JSX rendering, styling, toasts, navigation, scrolling and React effect
  scheduling. `ChatInterface.OnProps` decides the props effect's action,
  but the `Chat` class does not run it.
- QAManagement: `fetchQAPairs` and `handleDelete` are not modelled. They
  only load and delete rows through the backend. A save reports the reload
  but does not perform it.
- Team handlers: the environment-variable check, CORS preflight and a
  request body that fails to parse are not modelled. All three end in
  fixed responses before or outside the guards.
- Team handlers: `role` and `newRole` values outside reader, editor and
  admin are not modelled. The database's enum check rejects them.
- Queries whose errors the source ignores are taken to succeed. These are
  the target lookups, the admin count and the inserts of chat messages.
- ListTeamMembers.Handle: the member rows are returned without the joined
  profile email. The pending invitations, with their status filter and
  order, are a parameter.
- SendTeamInvitation.Handle: the email's HTML, the inviter's profile lookup
  and the invitation link are not modelled. An error the email call
  returns only decides what is logged, so it is not a parameter; a call
  that throws is the `emailThrows` parameter.
- SendTeamInvitation.DaysLater: `setDate` is modelled on a calendar-day
  number. Month lengths and daylight-saving shifts are not modelled.
- `supabase/functions/analyze-data/index.ts`, `AddTeamMember.tsx` and the
  other pages are not part of this model. The OpenAI request options and
  the personality prompt text are not modelled either; the prompt is a
  parameter.
- Concurrent requests on the same tables. Each handler runs over one
  snapshot.
- CSV fields with quoted commas. Like the source, the model splits at
  every comma.
